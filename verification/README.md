# A lock service, modelled in Dafny

The system is a Chubby-style lock service: a Raft group keeps files, and its leader hands out locks on
them to clients that hold sessions. A lock is free, shared or exclusive; a session lives as long as its
lease is renewed; a client that loses its master presents the locks it holds to the next one. The log
that the group replicates is kept in memory, the state machine keeps its latest snapshots, and a
logger with a lock-free ring of slots writes to rotating files.

To verify the project, run `dafny verify dfyconfig.toml` in this directory.

## How it is organised

- **Locks and sessions.** `LockSpec` is the server as a table of values, every handler a function to
  a new state and an outcome. `LockInvariant` proves the invariant, mutual exclusion and the frame
  of every handler, `Outcomes` what each handler answers and does in terms of who holds what;
  `SessionEnd` characterises the end of a session; `Failover` the recovery of locks by a new master,
  `TwoMasters` what an old one beside it can still grant; `Isolation` what an exclusive holder can
  rely on. `LockServer` is the server as it is built: `Lock` objects on the heap that two indexes
  share. Its ghost field `view` is the table of values, `Linked` says how the objects stand for it,
  and every handler is proved to take `view` to what `LockSpec` says, with the same outcome; what is
  proved of the table thereby holds of the objects.
- **The client's map of locks.** `ClientView` puts the client's own map next to the server's table and
  proves when the two agree; `LockClient` is the client library over a `LockServer`.
  `ClientFailover` has several clients on one server, and what a new master gets back from their maps.
- **Leases.** `Lease` is the timed protocol between the session, its maintenance threads, the channel of
  reply tokens, the keep-alive handler and the client; `LeaseRestart` is about a client that starts
  again, `LeaseRenewal` about when a session is renewed in time, `JointSession` about what the lease
  does to the locks. `LeaseService`
  has the client's object next to a `LockServer`, each method being one event of the protocol.
- **The Raft log store.** `LogSpec` relates the sparse map to a start index and a sequence, `LogReads`
  says what is read before and after each update, `LogBatch` is batched reading, `LogPack` the byte
  format, `DiskSpec` the emulated slow disk, `LogStore` the class.
- **Snapshots.** `Snapshots` has the state machine and the transfer of a snapshot to a follower;
  `Replication` puts it under the server, whose files are the replay of the committed log.
- **The logger.** `SlotProtocol` is the protocol on the slots under every interleaving, `RingLogger`
  the ring as a queue in front of the file, `SlotRefinement` the step from the one to the other, and
  `Rotation` the bookkeeping of log files.
- `KeyOrder` is the order of string keys; `Sets`, `Options` and `Messages` hold what several modules use.

Every handler of the server is one atomic step. `append_log` either commits or is rejected, at the
handler's discretion (`committed`), and different path keys name different files. Clock readings,
leadership, cancelled calls, the order of a claim map and the codec of log entries are parameters.

## Where the code differs from what one may expect

The model follows the code.

- A session that is opened again after its end keeps the old, terminated object with its old start
  time, because `insert` never overwrites (src/app.cc:127). The client counts its lease from the new
  start, so lease safety fails: `LeaseRestart.RestartedClientOutlivesTheSession` is a run where it does,
  and `LeaseRestart.RestartIsSafeIff` says from the state of a terminated session exactly when it does
  not. A start resets the client's lease before any request leaves (src/client.cc:14-24), so that may
  also happen while the session lives, the request being answered after its timeout:
  `LeaseRestart.StartBeforeTheTimeoutIsOvertaken`.
  `SessionEnd.CloseAndReacquire` and `SessionEnd.TerminatedSessionKeepsItsLocks` show that such a
  session still obtains locks, and that closing it does not free them; once its threads are gone only
  the client's own release does (`JointSession.OnlyItsReleaseFreesOnEveryRun`).
- The handlers for locks do not look at leadership, as src/rpc.cc:42 and src/rpc.cc:107 do for sessions
  and keep-alives. So an old and a new master can both record an exclusive holder of one path:
  `TwoMasters.TwoExclusiveHolders`, with the exact condition in `TwoMasters.TablesNeverConflictIff`.
- The maintenance loop puts a token only if one of its turns, a second or more apart, meets the last
  second of the lease (src/app.cc:190-198), so a client that does everything right can lose its session:
  `LeaseRenewal.AttentiveClientSurvivesIff` and `LeaseRenewal.AttentiveClientCanLoseItsSession`.
- `apply_pack` of no entries on an empty store leaves the start at 1, whatever the index
  (src/consensus/log_store.cc:229-234): `LogPack.TransferToEmptyStore`.
- `end_session` stops at the first entry it cannot release (src/app.cc:214). So the session gives up
  its owned prefix, not everything; `SessionEnd.EndSessionFreesTheClientIff` says exactly when that is
  everything, and `SessionEnd.UnownedEntryBlocksRelease` gives a reachable state where it is not.
- `handle_jeopardy` goes on claiming after a refusal (src/app.cc:272), so a refused client ends with a
  terminated session that owns the claims behind the last refusal: `Failover.JeopardyOutcome`.
- `delete_lock` refuses when the file exists (src/app.cc:351), while `test_delete` in test/test.cc:56-78
  expects it to succeed. Since a held lock's file always exists, it refuses every request:
  `LockInvariant.DeleteNeverRemoves`.
- `write` accepts shared holders (src/app.cc:618-629), while test/test.cc:344-350 expects a refusal:
  `Isolation.WriteAcknowledgedIffOwner`, and for the consequence `Isolation.SharedHolderIsNotIsolated`.
- A successful `read` of the client library erases the path from its map (src/client.cc:320). Agreement
  with the server is kept by a read exactly when it does nothing (`ClientView.ReadKeepsAgreementIff`),
  and an exclusive lock that was read is stuck until the session ends (`ClientView.ReadLockIsStuck`).
- The jeopardy loop of the client leaves with `break` before it clears `looping` (src/client.cc:140-141),
  so nothing is claimed about a client that has entered jeopardy.
- documentation/architecture.md:37 speaks of a timeout of about a second and line 44 of a lease per
  lock; in the code sessions have leases of 15 seconds, and `acquire_lock` looks at no lease.
- The answer of `keep_alive` is a 32-bit number: `Lease.AnswerIsTheLeaseIff` says when it is the lease.

## Model

| member | source | states |
|---|---|---|
| LockInvariant.StepKeepsInv | src/app.cc:106-632 | every handler, and the timeout of a session, keeps: a lock is free exactly when it has no owners, an exclusive one has exactly one, an owner's session entry is the shared object, and the file of a held lock exists |
| LockInvariant.ReachableStatesSatisfyInv | src/app.cc:283-534 | that invariant in every reachable state, over all runs from empty tables and any files |
| LockInvariant.MutualExclusion | src/app.cc:416-465 | in a reachable state an exclusive holder is the only holder of the path, in whichever mode |
| LockInvariant.AcquireGrantedIffNoConflict | src/app.cc:371-467 | under the invariant a request is granted exactly when session, file and a real mode are there and nobody holds the path in a conflicting mode, the requester included |
| LockInvariant.ReleaseGrantedIffOwner | src/app.cc:469-509 | in a reachable state a release is granted exactly to owners: the other conditions follow |
| LockInvariant.OthersKeepTheirLocks | src/app.cc:106-632 | no handler run for one client makes any other client gain, lose or change the mode of a lock |
| LockInvariant.DeleteNeverRemoves | src/app.cc:324-369 | under the invariant `delete_lock` refuses every request and changes nothing |
| LockInvariant.RunOnlyGrows | src/app.cc:283-369 | over any run no lock record, file or session id ever disappears |
| LockInvariant.OpenedOnceForAll | src/app.cc:283-322 | once a path was opened and committed, every later open of it by anybody is refused, after any run |
| LockInvariant.StepKeepsTerminated | src/app.cc:106-632 | no handler, whoever calls it, revives a session that has ended |
| Outcomes.CreateAnswers | src/app.cc:106-134 | a session is refused exactly while one lives; a client that had none has a live and empty one then; a terminated one stays as it is |
| Outcomes.CloseAnswers | src/app.cc:136-156 | a close succeeds exactly for a live session, which is over then, and otherwise changes nothing |
| Outcomes.OpenAnswers | src/app.cc:283-299 | an open succeeds exactly with a session and without a file, and which refusal it meets otherwise |
| Outcomes.OpenedLockIsFree | src/app.cc:301-321 | a lock that was opened and committed is free: every client with a session gets it in either mode at once, and reads an empty file |
| Outcomes.OpenedEntryIsSharedIffNew | src/app.cc:318-319 | the opener's entry shows what others then do with the lock exactly if the server-wide map had no object for the path |
| Outcomes.AcquireAnswers | src/app.cc:371-467 | which refusal a request meets, in terms of session, file, mode and who holds the path; a refusal changes nothing |
| Outcomes.ReleaseAnswers | src/app.cc:469-509 | the same of a release, which succeeds exactly for owners |
| Outcomes.DeleteAnswers | src/app.cc:324-356 | the same of a delete: the file is in the way exactly if somebody holds the path exclusively and the caller's entry is the shared object |
| Outcomes.ReadAnswers | src/app.cc:536-582 | which answer a read gets, Ok exactly for an owner, and that the content comes with every answer but the two without a session or a file |
| Outcomes.WriteAnswers | src/app.cc:584-632 | which answer a write gets, Ok exactly for an owner; the file then has the content if it is committed, and nothing else moves |
| Outcomes.ReadAfterWrite | src/app.cc:536-632 | a committed write is what the next read of any owner returns |
| Outcomes.EntriesMove | src/app.cc:283-534 | an open and a grant add one path to the caller's session, a release takes one, and no other entry of anybody changes |
| Outcomes.RecoveryOfATerminatedSession | src/app.cc:250-281 | a client whose session was terminated gets all claims that the table can grant and keeps what else it held; its session stays terminated |
| KeyOrder.LessIsLexicographic | src/app.cc:208 | the order of the iteration over keys: the first difference decides, and a proper prefix comes first |
| SessionEnd.EndSessionGivesUpOwnedPrefix | src/app.cc:202-222 | the end of a session terminates it and releases exactly the longest run of owned entries in key order, whatever the loop does; every other record, holding and session stays |
| SessionEnd.EndSessionFreesTheClientIff | src/app.cc:202-222 | the client ends owning nothing exactly when no entry it does not own sorts before one it owns |
| SessionEnd.EndSessionReleasesEverything | src/app.cc:202-222 | with every entry owned, the session ends empty and the client owns nothing |
| SessionEnd.ReleasedLocks | src/app.cc:511-533 | a lock given up at the end of a session is free if it was exclusive, and else loses that owner only |
| SessionEnd.UnownedEntryBlocksRelease | src/app.cc:209-216 | a reachable state in which an opened but never acquired path keeps a later exclusive lock held past the end of its session |
| SessionEnd.CloseAndReacquire | src/app.cc:106-156 | after close and create a client gets a lock that it owned back in a mode exactly if nobody, itself included where the close did not get to it, still holds the path in a conflicting mode; the session stays terminated |
| SessionEnd.TerminatedSessionKeepsItsLocks | src/app.cc:136-156 | over any run without the client's own release, a timeout or a recovery of it, a lock that is held through a terminated session stays held in its mode: a close is refused |
| JointSession.RunKeepsCoupled | src/app.cc:106-281 | over every interleaving of lease events and lock handlers, the lease and the lock table agree on whether the client has a session and whether it is terminated |
| JointSession.OnlyItsReleaseFreesOnEveryRun | src/app.cc:136-199 | after any history in which all threads of a terminated session are gone, and until the client starts a session again, a lock that it holds is freed by its own release only, whatever keep-alives, closes, looks and handlers of all clients follow |
| JointSession.ItsReleaseFrees | src/app.cc:469-534 | and its own release does free it |
| JointSession.HandlersRun | src/app.cc:283-632 | every other handler, of whichever client, runs on the table as it is |
| JointSession.TimeoutGivesUpTheLocks | src/app.cc:180-188 | the turn that finds the lease over frees every lock of a session whose entries are all owned |
| JointSession.KeepAliveRecovers | src/rpc.cc:119-124 | a keep-alive that finds no session leaves the client exactly the claims behind the last refused one, and its new lease terminated exactly if one was refused |
| Failover.ClaimsProgress | src/app.cc:264-277 | after any number of claims: the client holds exactly the claims that no later refusal undid, and its session lives exactly while none was refused |
| Failover.JeopardyOutcome | src/app.cc:250-281 | recovery of a client without a session leaves it exactly the claims behind the last refused one in the claimed modes, terminated exactly if one was refused, and everybody else untouched |
| Failover.JeopardyNeverDisturbsOthers | src/app.cc:250-281 | for every sequence of claims, in every state under the invariant, recovery changes no other client's holdings, no file and no other session |
| Failover.CompatibleClaimsAreGranted | src/app.cc:264-277 | claims that fit the table are all granted, in any order |
| Failover.TrueClaimsAreCompatible | src/app.cc:416-465 | what a client held in the old table never conflicts with what the others have claimed back |
| Failover.FailoverGrantsExactlyTheClaims | src/app.cc:250-281 | from empty tables, clients that claim only what they held, in any order and each claim map in any order, hold exactly what they claimed, through live sessions |
| Failover.FailoverRebuildsTheLockTable | src/app.cc:250-281 | the new table is then the old one at every path exactly if everything that was held is claimed |
| Failover.UnclaimedLockIsLost | src/app.cc:250-281 | an exclusive lock that its holder does not claim is free after the fail-over |
| Failover.LateRecoveryIsRefused | src/app.cc:264-273 | a client that claims a path exclusively which somebody else has meanwhile taken ends terminated and without it, and the other keeps it |
| TwoMasters.TablesNeverConflictIff | src/app.cc:371-467 | from the moment a new master begins beside an old one that does not know it, in any interleaving of handlers on both, the two tables never record conflicting holders exactly if each lock that one lets a client gain is compatible with what the other records for others at that moment |
| TwoMasters.AcquireIsAdmissibleIff | src/app.cc:416-465 | for a request that condition is: what is granted, and not held already, conflicts with nobody on the other server |
| TwoMasters.RecoveryIsAdmissibleIff | src/app.cc:250-281 | for the recovery of a client without a session: the claims behind the last refused one conflict with nobody on the other server |
| TwoMasters.TrueClaimsAreAdmissible | src/app.cc:250-281 | claims of what the other server still records for the client always meet it |
| TwoMasters.OthersAreAdmissible | src/app.cc:106-632 | so does every other handler |
| TwoMasters.TwoExclusiveHolders | src/app.cc:371-467 | without it, for every lock held exclusively on the old master, a run of two calls gives another client the same lock exclusively on the new one |
| TwoMasters.CopiedFileCanBeLocked | src/app.cc:386-464 | a file that is written on one server and reaches the other can be locked there, whoever holds it on the first, and is read with its content |
| TwoMasters.OneServerAtATime | src/app.cc:106-632 | a handler runs on its own server and leaves the other as it is |
| Isolation.ContentChangesOnlyByOwners | src/app.cc:584-632 | whatever handler runs, the content of a file moves exactly by a committed write of an owner of its lock |
| Isolation.ExclusiveHolderIsIsolated | src/app.cc:283-632 | over any run of other clients' handlers an exclusive holder keeps its lock, and the file its content |
| Isolation.ReadReturnsLastCommittedWrite | src/app.cc:536-632 | while a client holds a path exclusively, in any interleaving, its read succeeds and returns its last committed write, or the content it found |
| Isolation.ReadSucceedsIffOwner | src/app.cc:551-581 | in a reachable state a read succeeds exactly for an owner of the lock, in either mode, and returns the content of the file |
| Isolation.WriteAcknowledgedIffOwner | src/app.cc:584-632 | in a reachable state a write is acknowledged exactly when the writer owns the lock, in either mode and whether or not the log takes it |
| ClientView.ClientViewIsSound | src/client.cc:215-328 | over every interleaving until the server ends the session, each path and mode in the client's map is a lock that the server records for it in that mode |
| ClientView.SoundFromTheFirstSession | src/client.cc:12-54 | and so it is from the first session of a client on, whatever the server already holds |
| ClientView.ClientViewIsExactWithoutReads | src/client.cc:215-283 | if the client never reads, the map is at every moment exactly what it holds at the server |
| ClientView.ServerRunsTheHandler | src/client.cc:157-366 | a call that is not blocked runs its handler on the server exactly once if it needs no listed path or the path is listed, and any other runs nothing |
| ClientView.AcquiredIsHeldAndListed | src/client.cc:229-243 | a granted request is held in its mode on the server and listed with it, and the rest of the map stays |
| ClientView.ReleasedIsGone | src/client.cc:260-282 | a listed lock can always be released, and is then neither owned nor listed |
| ClientView.WriteThenRead | src/client.cc:344-365 | a write to a listed path is acknowledged and, if committed, is what the file holds and a read returns; no lock and no other file moves |
| ClientView.ReadOfAListedPath | src/client.cc:302-327 | a listed path can be read, with the content of the file; only the map changes |
| ClientView.ReadKeepsAgreementIff | src/client.cc:302-320 | a read leaves the map complete exactly when the path is not in it |
| ClientView.ForgottenLockIsStuck | src/client.cc:246-328 | an exclusive lock that the client's map has lost stays held and unlisted, and its content fixed, whatever the client and the others do, until the session ends |
| ClientView.ReadLockIsStuck | src/client.cc:313-320 | one read of an exclusive lock is enough for that |
| ClientFailover.EveryMapIsSound | src/client.cc:215-328 | with any number of clients starting, calling and ending their sessions, by a close or a timeout, in any order from empty tables, every map is sound, and every held lock is in its holder's map if every action is careful |
| ClientFailover.ActionKeepsCompleteIff | src/client.cc:12-328 | an action keeps every held lock in a map exactly if it is careful: it reads no listed lock, starts no session over a lock still held, and ends none with an unowned entry before an owned one |
| ClientFailover.OneReadLosesALock | src/client.cc:313-320 | a history of four calls of one client after which a lock is held and in no map |
| ClientFailover.JoinAchieves | src/client.cc:12-54 | a start gives a client without a live session a session and an empty map, and is refused to one whose session lives |
| ClientFailover.CallAchieves | src/client.cc:157-366 | a call is the step of `ClientView` for its caller, and no other map changes |
| ClientFailover.EndAchieves | src/app.cc:136-222 | an end of a live session whose entries are all owned leaves it terminated and empty, and the client without locks and map |
| ClientFailover.MapsRebuildTheTableIff | src/client.cc:112-142 | after any such history, ended sessions included, a new master that is presented with the maps rebuilds the old lock table exactly if every held lock is in its holder's map |
| ClientFailover.CarefulClientsRebuildTheTable | src/client.cc:112-142 | careful clients rebuild the table from their own maps, in any order |
| ClientFailover.NonReadersRebuildTheTable | src/client.cc:112-142 | in particular clients that never read and whose sessions do not end |
| ClientFailover.UnlistedLockIsLost | src/client.cc:112-142 | a lock whose exclusive holder does not list it, because it has read it or its session has ended, is free after the fail-over |
| LockServer.Server.OwnershipIsShared | include/struct.h:81-107 | a client owns a path in the server-wide map exactly when its session's entry is that same object and lists it |
| LockServer.Server.EntryOwnership | src/app.cc:491-509 | the ownership test on a session's entry succeeds exactly if the entry is the shared object and the table lists the client; a detached object has no owners |
| LockServer.Server.CreateSession | src/app.cc:106-134 | the heap of sessions does what the table does, and keeps every link between the indexes |
| LockServer.Server.CloseSession | src/app.cc:136-156 | refines the table: ends a live session, refuses otherwise |
| LockServer.Server.EndSession | src/app.cc:202-222 | the loop over the session's own map, which the releases change under it, refines the recursion of the table |
| LockServer.Server.OpenLock | src/app.cc:283-322 | refines the table, with the objects that an insert drops or leaves detached |
| LockServer.Server.DeleteLock | src/app.cc:324-369 | refines the table, and the removal branch is unreachable |
| LockServer.Server.AcquireLock | src/app.cc:371-467 | refines the table: loads a missing lock, refuses a conflict, and replaces a detached entry by the shared object |
| LockServer.Server.ReleaseLock | src/app.cc:469-534 | refines the table: erases owner and entry, frees the lock when the last owner leaves |
| LockServer.Server.ReadFile | src/app.cc:536-582 | refines the table, with the content that comes back beside a refusal; succeeds exactly for an owner |
| LockServer.Server.WriteFile | src/app.cc:584-632 | refines the table: the content changes only for an owner and only by a committed write |
| LockServer.Server.Recover | src/app.cc:250-277 | refines the table: claims in the order of the iteration, the session ended at each refusal; refused exactly for a live session |
| LockServer.Server.HandleJeopardy | src/app.cc:250-281 | the whole handler: -1 for a live session, the old length for a terminated one, and for a new one twice the extension, or once if a claim was refused |
| LockServer.Server.AttemptExtendSession | src/app.cc:224-248 | -1 without a session; otherwise takes a token, extends a live session by 15 seconds and returns the length; no lock changes |
| LockClient.LockClient.AcquireLock | src/client.cc:215-244 | client and server take the step of `ClientView`; on success the client holds the lock and lists it, an old listing staying as it was; otherwise nothing changes |
| LockClient.LockClient.ReleaseLock | src/client.cc:246-283 | a path that is not listed never reaches the server; on success the client, which owned the lock, owns and lists it no more; otherwise nothing changes |
| LockClient.LockClient.Read | src/client.cc:285-328 | succeeds exactly if the path is listed and the client owns its lock, returns the content of the file then, and erases the path from the map |
| LockClient.LockClient.Write | src/client.cc:330-366 | succeeds exactly if the path is listed and the client owns its lock; the file then has the content if it is committed; nothing else changes |
| LockClient.LockClient.WriteThenRead | src/client.cc:285-366 | what is written, acknowledged and committed is what a read through the library returns next |
| Lease.RunIsSafe | src/client.cc:20-105 | on every run, until jeopardy or a new start of the client since it has a session, the client's lease, and every answer on its way, ends no later than the session's |
| Lease.TimeoutNeverPrecedesTheClient | src/app.cc:170-188 | on every run, for the client's first start and until jeopardy, a session is ended by timeout only when the client's own lease has run out |
| Lease.RunIsBounded | src/app.cc:166-248 | on every run a live session owes at most two tokens, and expiry plus 15 seconds for each stays within 31 seconds of now |
| Lease.LeaseNeverExceeds31Seconds | src/app.cc:166-248 | hence a live session's lease never runs more than 31 seconds past the present, nor does the client's copy until jeopardy or a new start |
| Lease.NarrowKeepsTheLowBits | src/rpc.cc:119 | the narrowed number is the low 32 bits of the length, read as a signed number |
| Lease.AnswerIsTheLeaseIff | src/rpc.cc:119-124 | the 32-bit answer is never longer than the lease, and is the lease exactly below 2^31 ms; a length that reads as negative is answered -1 on a live session, and not yet on a terminated one |
| Lease.RecoveringHandlerAnswers | src/app.cc:224-281 | on every interleaving, a handler that comes out of recovery answers 15 seconds for the session's creation and 15 for each extension in the run so far, its own included if the session lives, narrowed to 32 bits |
| Lease.RecoveryOpensAndAnswers | src/rpc.cc:119-124 | and it gets there: a keep-alive that finds no session opens one, and with its thread's token is answered 30 seconds |
| Lease.DeadlineEndsTheLease | src/client.cc:94-112 | a client that gives up waiting is in jeopardy, and takes no answer before it starts anew |
| Lease.DeliveredAnswerIsTheLease | src/client.cc:101-105 | an answer becomes the length of the lease of a client that still waits, and moves nothing else |
| Lease.TurnedAway | src/rpc.cc:107-117 | a handler off the leader, or of a cancelled call, takes no token and changes nothing |
| LeaseRestart.WindowIsCoveredIff | src/client.cc:12-54 | after any run and a start at any time, whose session is or is then terminated, until the first answer the client's lease ends within the session's exactly if it started 12 seconds or more before the end of that |
| LeaseRestart.AnswerCoversIff | src/client.cc:94-105 | after each answer on a terminated session, exactly if the client's start is no further behind the session's than the answer falls short of its length: for the full length, only if it started no later than the session |
| LeaseRestart.RestartIsSafeIff | src/app.cc:117-131 | from any reachable state with a terminated session, wherever the client's start lies, the client stays covered on every run exactly if the lease it has and every answer that can come, counted from its start, end within the session's lease |
| LeaseRestart.RestartIsSafeOnlyAtTheStart | src/app.cc:117-131 | while lengths fit 32 bits that is the case exactly if the client started no later than the session; for one that started anew, at the same moment |
| LeaseRestart.RestartedClientOutlivesTheSession | src/app.cc:127-131 | a run in which the relaunched thread has ended the old session while the restarted client's lease has 5 seconds to run |
| LeaseRestart.StartBeforeTheTimeoutIsOvertaken | src/client.cc:14-28 | a run in which a start made while the session lives is served after its timeout, which precedes the end of the client's lease by 11.9 seconds |
| LeaseRenewal.AttentiveClientSurvivesIff | src/app.cc:170-199 | over the turns of one lease window, the session of a client whose keep-alive is always waiting survives exactly if some turn sees something, and at most a second, left of the lease |
| LeaseRenewal.AttentiveClientCanLoseItsSession | src/app.cc:190-199 | a run with turns at 28.5 and 30 seconds in which such a client loses its session |
| LeaseService.Service.MaintainTurn | src/app.cc:170-199 | a turn of the maintenance loop is that event of the protocol: timeout, with the end of the session and its locks, exactly when nothing is left, a token in the last second, the next turn a second later |
| LeaseService.Service.KeepAliveRpc | src/rpc.cc:99-127 | the handler is that event of the protocol, for a client with a session and without: leader gate, cancelled calls, narrowing, and the fall-through to recovery with its effect on the locks |
| LeaseService.Service.Resumed | src/app.cc:279-280 | the rest of a recovery, once there is a token, is that event of the protocol and answers the narrowed length |
| LeaseService.Service.CreateSession | src/app.cc:106-134 | opening a session is that event of the protocol: a new lease, or one more thread on a terminated one |
| LeaseService.Service.CloseSession | src/app.cc:136-156 | closing is that event of the protocol and ends the session on the server |
| LeaseService.Service.ClientTurn | src/client.cc:94-112 | a turn of the client's loop takes an answer as the length of its lease, or enters jeopardy if there is none |
| LogSpec.SizeGivesNextSlot | src/consensus/log_store.cc:38-42 | while the map stands for a log, the next slot computed from its size is the end of the sequence |
| LogReads.ReadsTheSequence | src/consensus/log_store.cc:155-166 | each entry is read at its own index, the dummy everywhere else |
| LogReads.AppendReads | src/consensus/log_store.cc:59-73 | an appended entry is read at the index it was given, and all others as before |
| LogReads.WriteReads | src/consensus/log_store.cc:75-84 | a written entry is read at its index, lower ones as before, and higher ones are gone |
| LogReads.CompactReads | src/consensus/log_store.cc:238-254 | compaction forgets what it names and keeps the rest, each entry at its index |
| LogReads.OverlayReads | src/consensus/log_store.cc:209-236 | an applied batch is read at its indices, and the old log elsewhere |
| LogReads.LastReads | src/consensus/log_store.cc:48-57 | the entry in front of the next slot is the last one |
| LogSpec.WriteKeepsContiguityIff | src/consensus/log_store.cc:75-84 | a write keeps the keys an interval exactly if its index is between the start and the next slot, or replaces the dummy |
| LogSpec.OverlayAdjoining | src/consensus/log_store.cc:209-236 | a batch applied next to or over a log gives the two merged, with the right start |
| LogSpec.OverlayKeepsContiguityIff | src/consensus/log_store.cc:209-236 | a batch keeps the keys an interval exactly if it touches the log or one of them is empty |
| LogStore.InmemLogStore.NextSlotOf | src/consensus/log_store.cc:38-42 | the end of the sequence |
| LogStore.InmemLogStore.LastEntry | src/consensus/log_store.cc:48-57 | the last entry of the sequence, or the dummy: what is read in front of the next slot |
| LogStore.InmemLogStore.EntryAtIndex | src/consensus/log_store.cc:155-166 | the entry of the sequence in range, the dummy out of range |
| LogStore.InmemLogStore.TermAt | src/consensus/log_store.cc:168-179 | its term |
| LogStore.InmemLogStore.LogEntries | src/consensus/log_store.cc:103-124 | for each index of the range in turn the entry that is read there |
| LogStore.InmemLogStore.LogEntriesExt | src/consensus/log_store.cc:126-153 | the entries that are read from the start on: the shortest prefix of the range that reaches a positive hint, all of it for 0, nothing for a negative hint |
| LogBatch.DataSizeAddsUp | src/consensus/log_store.cc:148 | the size of a batch is the number of bytes in its buffers |
| LogBatch.BatchIsTheShortestPrefix | src/consensus/log_store.cc:131-152 | a batch is all of the entries without a hint or if they do not reach it, none for a negative one, and otherwise the shortest prefix that reaches it |
| LogBatch.BatchIsUnique | src/consensus/log_store.cc:131-152 | that description leaves one answer |
| LogBatch.BatchIsNonempty | src/consensus/log_store.cc:131-152 | a batch is nonempty exactly when something was asked for and the hint is not negative |
| LogBatch.RefetchingLosesNothing | src/consensus/log_store.cc:126-153 | fetching again from where the last batch ended terminates with exactly the entries asked for |
| LogStore.InmemLogStore.Append | src/consensus/log_store.cc:59-73 | the entry is read at the index returned, which was the next slot, and all others as before; it is scheduled on the disk as in `DiskSpec`, and with a delay and a clock that does not run back the disk's books stay in step with the log |
| LogStore.InmemLogStore.WriteAt | src/consensus/log_store.cc:75-101 | in range, truncates and extends the sequence and keeps the books; at 0, leaves a new dummy and nothing else; contiguity survives exactly there; later indices leave the disk |
| LogStore.InmemLogStore.Compact | src/consensus/log_store.cc:238-254 | for any argument, drops the front of the sequence and moves the start, even past the end; the disk's books stay in step exactly if not past it |
| LogStore.InmemLogStore.Pack | src/consensus/log_store.cc:181-207 | the allocated buffer is filled exactly with the count and the length-prefixed entries |
| LogStore.InmemLogStore.ApplyPack | src/consensus/log_store.cc:209-236 | lays the unpacked entries over the map, at index 0 over the dummy, and finds the start; the result is again a log exactly if the batch touches it |
| LogPack.PackedSize | src/consensus/log_store.cc:197 | the allocated size is the size of what is put into it |
| LogPack.PackRoundTrip | src/consensus/log_store.cc:181-225 | unpacking what was packed gives the same entries, for any invertible codec, whatever follows in the buffer |
| LogPack.TransferToEmptyStore | src/consensus/log_store.cc:181-236 | an empty store ends with the same entries; it holds them at the given index exactly if there are any or the index is 1 |
| LogStore.Transfer | src/consensus/log_store.cc:181-236 | packing in one store and applying in another overlays the receiver's log with the sender's entries, and leaves a log exactly if they touch; an empty receiver ends as above |
| LogStore.InmemLogStore.Flush | src/consensus/log_store.cc:256-259 | the last index is recorded as durable, and the books are in step if they were or nothing is pending |
| LogStore.InmemLogStore.LastDurableIndex | src/consensus/log_store.cc:274-281 | the last index of the log without emulation, the recorded one with it, which is the last index too when the books are in step and nothing is pending |
| LogStore.InmemLogStore.DrainDisk | src/consensus/log_store.cc:292-320 | one wake-up removes exactly what is due, records the latest of it, notifies exactly if something was due, and keeps the books in step |
| DiskSpec.WrittenSchedules | src/consensus/log_store.cc:86-98 | a write schedules its index, drops exactly the pending indices above it and keeps the others at their times |
| DiskSpec.DrainedIsDurable | src/consensus/log_store.cc:297-309 | draining removes exactly what is due, and the latest of it is durable then |
| DiskSpec.CompactionKeepsInvIff | src/consensus/log_store.cc:238-254 | compaction keeps the disk's books exactly when it stays below the next slot |
| DiskSpec.RunKeepsDiskInv | src/consensus/log_store.cc:59-101 | on every run with a fixed delay, the latest pending index is the last of the log |
| DiskSpec.DurabilityOnEveryRun | src/consensus/log_store.cc:283-321 | on every run pending indices are nondecreasing in time and below the next slot, and with nothing pending the durable index is the last of the log |
| Snapshots.InsertThenTrim | include/state_machine.hxx:241-250 | trimming the table after an insertion is trimming the full history |
| Snapshots.TopIsUnique | include/state_machine.hxx:243-250 | "the history restricted to its three largest indices" is one table |
| Snapshots.KeptIff | include/state_machine.hxx:243-250 | a snapshot is still there exactly while fewer than three later ones exist |
| Snapshots.StateMachine.CreateSnapshotInternal | include/state_machine.hxx:231-251 | the new context has the path of the last commit, or the value of the last applied snapshot, or "/" before either; it enters the history, and a snapshot is in the table exactly while fewer than three later ones exist |
| Snapshots.StateMachine.LastSnapshot | include/state_machine.hxx:192-200 | the snapshot with the largest index ever created, nothing if there was none |
| Snapshots.StateMachine.SaveLogicalSnpObj | include/state_machine.hxx:156-175 | the first object creates the snapshot, the second replaces its value, exactly if it is still there |
| Snapshots.StateMachine.ApplySnapshot | include/state_machine.hxx:177-185 | the current value becomes the snapshot's, exactly if it is still there |
| Snapshots.StateMachine.Commit | include/state_machine.hxx:58-113 | only a write changes the files, and only at its path; the value and the index follow every commit |
| Snapshots.Transfer | include/state_machine.hxx:125-185 | a two-object transfer succeeds exactly when the leader has the snapshot and the follower fewer than three later ones; it gives the follower the snapshot and the leader's value, and a transfer that fails leaves the value as it was |
| Snapshots.CommitSnapshotTransfer | include/state_machine.hxx:58-251 | after a run of commits, a snapshot at the last and its transfer, the follower's value is the path of the leader's last command, exactly if neither had three later snapshots |
| Replication.ReplayHasTheLastWrite | include/state_machine.hxx:58-113 | after the replay of a log a file is there exactly if it was at the start or is written in the log, with the content of the last write |
| Replication.Node.Open | src/app.cc:294-308 | opening a lock keeps the server's files the replay of the committed log, which grows by an empty file exactly if granted and committed |
| Replication.Node.Write | src/app.cc:596-631 | so does a write, whose content enters the log exactly if an owner makes it and the log takes it |
| Replication.Node.ReadsTheLog | src/app.cc:536-582 | a read that succeeds hands out the content of the last write in the log |
| Snapshots.CommitAll | include/state_machine.hxx:58-113 | a node that commits a log of commands, one by one, ends with the replay of the log, the last path as its value and the last index |
| Replication.TakeOver | src/app.cc:250-281 | a new master on a caught-up node starts from the old one's files, so that honest recoveries rebuild the old lock table exactly if everything held is claimed |
| SlotProtocol.RunKeepsInv | src/consensus/debugger.cc:572-601 | under every interleaving a slot in use has exactly one thread at it, which knows how far its record is |
| SlotProtocol.SlotsAreExclusiveAndAccounted | src/consensus/debugger.cc:580-601 | under every interleaving two threads never work on one slot, and the successful writes are, as a multiset, the flushed records and the complete ones still in slots |
| SlotProtocol.FlushedRecordsAreComplete | src/consensus/debugger.cc:592-601 | every flushed record is one complete message of a successful write |
| SlotProtocol.DirtyIsNeverOverwritten | src/consensus/debugger.cc:580-601 | a complete record stays as it is until it is appended to the file |
| SlotRefinement.UninterruptedWrite | src/consensus/debugger.cc:580-590 | a write that nobody interrupts fills a clean slot of the ring with the cut message and touches nothing else |
| SlotRefinement.UninterruptedFlush | src/consensus/debugger.cc:592-601 | a flush that nobody interrupts moves the message of a dirty slot of the ring to the file, and leaves a clean slot alone |
| SlotRefinement.WriteToDirtySlotIsLost | src/consensus/debugger.cc:580-583 | a write to a slot that is still dirty leaves everything as it was |
| SlotRefinement.QuiescentRingHoldsTheRest | src/consensus/debugger.cc:571-601 | after any interleaving, with all threads idle, the file and the dirty slots of the ring hold exactly the messages of the successful writes |
| RingLogger.DirtyConcat | src/consensus/debugger.cc:972-981 | flushing the ring in two halves flushes its dirty records in circular order |
| RingLogger.AdvancedRing | src/consensus/debugger.cc:858-865 | moving the cursor over a slot and filling it puts its message last, also where the ring wraps |
| RingLogger.Logger.Put | src/consensus/debugger.cc:858-877 | the file followed by the dirty slots from the cursor on stays the queue of all messages, across any number of wraps; the message is in the slot at the cursor, which moves on by one; a dirty slot there sends everything put so far to the file |
| RingLogger.Logger.Flush | src/consensus/debugger.cc:968-982 | the dirty records reach the file in circular order from the given slot, and every slot is clean |
| RingLogger.Logger.FlushAll | src/consensus/debugger.cc:1003-1006 | the file is then the sequence of all messages put |
| Rotation.Rotator.Rotate | src/consensus/debugger.cc:984-998 | a closed revision is queued exactly if the manager lives, and the count of jobs stays the queued and the one in progress |
| Rotation.Rotator.TakeJob | src/consensus/debugger.cc:371-379 | jobs leave the list in the order in which they came |
| Rotation.Rotator.DoCompression | src/consensus/debugger.cc:944-966 | the new `minRevnum` exactly; the revisions from it on remain, at most `maxLogFiles` of them up to the compressed one, everything that the limit allows is kept, and none that is still to be compressed is lost |

## Left out

- NuRaft itself: elections, replication, `raft_server`; leadership and the fate of an appended write are inputs.
- `log_entry::serialize` and its inverse: a codec parameter, assumed invertible where a round trip is stated.
- gRPC stubs and `Endpoint` wrappers in src/rpc.cc other than the keep-alive handler: they forward requests.
- Real files, directories, temporary names and the random suffix of a write: a map from paths to contents.
- Threads and data races in the server and between handlers: the code has no locks there; every handler, every turn of a maintenance loop and every call of the client library is one atomic step.
- Asynchronous commits: an acknowledged append is taken to be committed or rejected within the handler that makes it.
- Fixed-size buffers for commands and for the transferred value: the values are taken to fit.
- 64-bit wrap-around of log indices, revisions and times: numbers are unbounded, apart from the 32-bit lease and the 32-bit lengths of packed records.
- What a client does after a `start_session` that was really refused, the session being alive when the request arrived: it has no master then, and no answer to that client is claimed to be safe.
- Calls of a client between the end of its session and its next start, in `ClientFailover`: it takes no part until it starts again, with an empty map (src/client.cc:17).
- A session whose length has outgrown 31 bits, in `JointSession.OnlyItsReleaseFreesOnEveryRun`: keep-alives then go into recovery and launch threads again.
- The client's retry loop in jeopardy: with its `break` it runs to expiry, and no recovery of a session is claimed.
- A token taken between the two clock readings of one turn of the maintenance loop: a turn sees one lease length.
- Several servers in the lease protocol: `Lease` follows one client and one server; the take-over by another server is `Failover`.
- Changing the delay of the disk emulation in the middle of a run of `DiskSpec`; the class allows it, and says which of its methods then keep the books in step.
- The contents of the dummy entry's buffer, which the map's entry 0 carries.
- The client's calls to open and delete a lock: they forward to the server; `ClientView` has them as steps.
- Formatting, levels and console output of the logger, crash dumps, several loggers on one list of jobs, and changing the limit of log files while running.
- The spinning of `put` while another thread has its slot: `SlotProtocol` allows every order of attempts, and `RingLogger` takes a `put` as a whole; a `put` that loses its slot to another thread drops its message in the source and is not part of the ring model.
- Option parsing, prompts and the copied test-suite utilities.
- LogStore.InmemLogStore.WriteAt: outside the range, and not at 0, it describes the map and the loss of contiguity, not a log, because the source then stands for none.
- LogStore.InmemLogStore.ApplyPack: assumes a buffer of whole records, as the source does of its sender; a gap is described on the map.
- LogStore.InmemLogStore.LogEntries: assumes every index of the range is present, as the source asserts.
- LockServer.Server.HandleJeopardy: takes the wait for a token as over, by a token that the launched thread has put; `LeaseService` has the two halves with the wait between them.
- LogStore.InmemLogStore.Append: promises nothing about the disk's books without a delay, since nothing is then scheduled.

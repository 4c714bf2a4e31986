# Verified model of the chat server, its client replica and their building blocks

A Dafny model of the parts of the program whose correctness depends on more than one
function. `dafny verify dfyconfig.toml` checks all of it.

* **Chat protocol** (`ChatDatabase`, `ChatHub`, `UserList`, `ChatServer`, `ChatHandlers`,
  `Transactions`, `ChatIndexes`, `ChatRights`, `ChatPresence`, `ChatAccess`, `ChatRuns`,
  `ChatReachable`, `ChatEffects`, `RoleEffects`, `JoinEffects`). Tables keyed by their
  primary keys, one session per connection, the two indexes of `ChatRoomManager`, one FIFO
  queue and one user list per connection. `ChatServer.Step` is one request, one close or one
  delivered message. `ChatHandlers.MessageHandlers` performs the same steps on its own fields,
  with its tables behind `Transactions.Database` and its indexes in `ChatHub.ChatRoomManager`;
  serving any list of requests is a run of the protocol. Invariants hold over runs of any
  length from a freshly started server: the indexes agree with the sessions, cached rights
  agree with the tables, every client's counts are exact once its queue is handled, and sessions
  carry the names of their users. Each
  invariant is kept by a step *if and only if* the step meets its condition, and a reachable
  state shows that each condition is needed. For every request it is proved when it succeeds,
  what it then changes for whom, who is told what, and that a refusal changes nothing.
* **Migrations** (`MigrationFiles`, `Migrations`, `RoleMigration`). Reading the directory, the
  resumable runner, and the data migration of roles, statement by statement.
* **Reader-writer lock** (`SharedMutex`, `LockProgress`, `AsyncMutex`). Loads, exchanges, stores and queue
  operations of any number of requests on any number of event loops, interleaved freely, as a
  step system and as an object that takes the same steps on its counter and queues. A task is
  queued on the loop whose thread runs at that moment. The model lets a loop start a task while
  another of its tasks is between two steps, so it has more interleavings than the program.
* **Text** (`Utf16`, `WrapText`, `WrapTextLaws`, `Sanitize`, with `Splitting` and `Trimming`). The
  Windows branch: UTF-16 units, surrogate pairs as single characters. Widths are any non-negative
  reals, white space is any predicate that includes newline and excludes surrogates.
* **Message window** (`MessageWindow`, `WindowMoves`, `AwaitedPages`, `MessageView`, `RoomView`). The bounded
  window over a room's history as values, what it shows when messages and reopenings overtake
  awaited pages, the deque, widget pool, flags and scroll row in place, and whole sessions of that
  object. A message has a fixed height.

Passwords, database faults, clocks and the window system appear as parameters: a `Verdict` for
credentials, `Fault` for transactions, `stored`/`JoinFault` for other database accesses, the
`broken` set for migration files, `visibleBegin` and `clientHeight` for scrolling.

Where code and comments disagree the model follows the code: `SanitizeInput` asks for an
alphanumeric code point, not for one of the Basic Multilingual Plane as
`client/include/client/textUtil.h:27-28` says; `WsData.user` is set while authenticating and
registering too, unlike the comment at `server/include/server/chat/WsData.h:59`.

Behaviour the proofs brought out, each stated with its exact condition:

* starting to authenticate or register while logged in leaves the connection in the user index
  (`ChatIndexes.RestartBreaksUserIndex`);
* an ADMIN giving a lesser role to a room's connected owner makes the owner's cached rights
  wrong (`ChatRights.StepKeepsRightsIff`);
* a membership row written without a broadcast, or a join whose row was not written, makes
  user lists wrong (`ChatPresence.StepKeepsPresenceIff`);
* a user who is logged in on several connections and changes names leaves the other sessions
  with a name that is no longer theirs (`ChatAccess.StepKeepsAccessIff`), and a user who takes
  the empty name, which the change allows, cannot log in again (`ChatReachable.RenamedCanLogInIff`);
* a migration file added with an early timestamp is skipped for good
  (`Migrations.SuccessAppliesLaterFiles`, `SkippedForGood`), and of two files with one timestamp
  only one is ever applied: a pass that has both to apply fails (`Migrations.PassSucceedsIff`,
  `DuplicateIsNeverApplied`);
* a moderator who was also owner or admin at the role migration keeps no moderator row of its
  own (`RoleMigration.LaterRightsAgreeIff`);
* once everything awaited has arrived, a live message has left the window a stretch of the
  history exactly when the awaited request, if any, has nothing to deliver, and either nothing
  was shown or no older page was awaited and the newest message was shown
  (`AwaitedPages.PostDrainsIff`). Unless something shown was deleted since the page was asked
  for, that is exactly when nothing is awaited and the newest message is shown, or none
  (`PostDrainsWhenIdle`); a message that comes while a newer page is awaited is shown twice
  (`LiveMessageShownTwice`);
* reopening a view while pages are awaited shows the first of them as an older page, all others
  and the newest page as newer ones, whatever they are (`AwaitedPages.ReopenedShowsAll`); with one
  page awaited that is an older one the right way up or a newer one upside down, and below it the
  newest page upside down (`ReopenedShows`). It is a stretch of the history exactly when there is
  at most one message and every awaited page is empty (`StartDrainsIff`);
* text typed into a limited entry while an update is queued is replaced when the update runs
  (`Utf16.TextEntry.Idle`).

## Model

| member | source | states |
|---|---|---|
| ChatDatabase.TransferOwnership | server/src/chat/MessageHandlers.cpp:681-714 | a committed transfer makes the target OWNER, leaves a different previous owner at least MODERATOR, reports that role, and changes nobody else's rights in any room |
| ChatDatabase.TransferWrites | server/src/chat/MessageHandlers.cpp:685-710 | a transfer writes the owner column and at most the old owner's moderator flag; the target is a user and no admin |
| ChatDatabase.OrdinaryAssignment | server/src/chat/MessageHandlers.cpp:667-720 | an ordinary assignment can change only the target, which ends with exactly the new role if and only if it does not own the room |
| ChatDatabase.AssignSucceedsIff | server/src/chat/MessageHandlers.cpp:667-723 | an assignment succeeds if and only if the room exists, the target ranks below the actor, the role ranks below the actor or is OWNER given by an OWNER or ADMIN, and there are rows to write it to |
| ChatDatabase.FrameOfRoleWrite | server/src/chat/MessageHandlers.cpp:756-789 | effective rights depend on the admin flag, the owner column and the user's own moderator row only |
| Transactions.Database.WithTransaction | server/include/server/utils/scoped_coro_transaction.h:83-123 | success is exactly a finished body with a confirmed commit, stores its draft and hands on what it captured; any error leaves the database unchanged and a body's own error is passed on |
| Transactions.Transaction.Commit | server/include/server/utils/scoped_coro_transaction.h:42-61 | dropping the transaction stores the draft exactly when the callback reports success |
| Transactions.AssignAtomically | server/src/chat/MessageHandlers.cpp:663-728 | whatever fails, a role assignment changes no table or has exactly the frame of a transfer or of an ordinary assignment |
| ChatHub.ChatRoomManager.RegisterConn | server/src/chat/ChatRoomManager.cpp:51-54 | adds the connection to its user's set and changes nothing else |
| ChatHub.ChatRoomManager.AddConnToRoom | server/src/chat/ChatRoomManager.cpp:56-59 | adds the connection to the room's set and changes nothing else |
| ChatHub.ChatRoomManager.RemoveConnFromRoom | server/src/chat/ChatRoomManager.cpp:61-81 | tells the room, the leaver included, then removes the connection and an emptied set |
| ChatHub.ChatRoomManager.UnregisterConn | server/src/chat/ChatRoomManager.cpp:83-99 | leaves the room if in one, then removes the connection from its user's set |
| ChatHub.ChatRoomManager.RoomWasDeleted | server/src/chat/ChatRoomManager.cpp:101-110 | drops the room's set and tells every connection in the user index |
| ChatHub.ChatRoomManager.UpdateRoomRights | server/src/chat/ChatRoomManager.cpp:112-139 | rewrites the cached rights of exactly the user's connections in that room and tells the room, or does nothing for a user without connections |
| ChatHub.ChatRoomManager.SendToRoomUnsafe | server/src/chat/ChatRoomManager.cpp:146-153 | one message to every connection of the room and to no other |
| ChatHub.ChatRoomManager.SendToAllUnsafe | server/src/chat/ChatRoomManager.cpp:160-166 | as many copies for a connection as entries of the user index hold it |
| ChatHub.ChatRoomManager.UsersInRoom | server/src/chat/ChatRoomManager.cpp:26-49 | the returned list has each user as often as it has connections in the room |
| ChatHub.ToAllStep | server/src/chat/ChatRoomManager.cpp:160-166 | one turn of the nested broadcast loop adds one copy for the connections of one more user |
| ChatHub.TallyIsUsersAmong | server/src/chat/ChatRoomManager.cpp:37-47 | counting list entries per user is counting connections per user |
| ChatHandlers.MessageHandlers.Join | server/src/chat/MessageHandlers.cpp:300-383 | performs the join step, leaving the previous room first |
| ChatHandlers.MessageHandlers.JoinRoomById | server/src/chat/MessageHandlers.cpp:317-376 | the lookups, the membership row and the two failure answers of a join, in their order |
| ChatHandlers.MessageHandlers.TakeSeat | server/src/chat/MessageHandlers.cpp:355-376 | caches the effective rights, announces the user once or twice, adds the connection, answers with members and active users |
| ChatHandlers.MessageHandlers.Leave | server/src/chat/MessageHandlers.cpp:385-404 | performs the leave step and keeps the invariant; what the step does is ChatEffects.LeaveRoomEffect |
| ChatHandlers.MessageHandlers.CreateRoom | server/src/chat/MessageHandlers.cpp:406-466 | performs the creation step and keeps the invariant: room and membership rows in one transaction, then the broadcast |
| ChatHandlers.MessageHandlers.DeleteRoom | server/src/chat/MessageHandlers.cpp:597-644 | performs the deletion step and keeps the invariant: one transaction with its cascades, then the broadcast; sessions keep their current room |
| Transactions.RunAssignment | server/src/chat/MessageHandlers.cpp:667-723 | the statements of the lambda, writing to the draft of a transaction, compute exactly the specified assignment or refusal, which ChatDatabase.AssignSucceedsIff tells apart |
| ChatHandlers.MessageHandlers.AssignRole | server/src/chat/MessageHandlers.cpp:646-745 | performs the assignment step and keeps the invariant: one transaction for the tables, then the caches of old owner and target |
| ChatHandlers.MessageHandlers.ChangeUsername | server/src/chat/MessageHandlers.cpp:938-995 | performs the renaming step and keeps the invariant: one transaction for the row, then the session of the request alone, then the broadcast |
| ChatHandlers.MessageHandlers.Logout | server/src/chat/MessageHandlers.cpp:521-536 | performs the logout step |
| ChatHandlers.MessageHandlers.ConnectionClosed | server/src/controller/WsController.cpp:49-55 | performs the closing step and keeps the invariant |
| ChatHandlers.MessageHandlers.Handle | server/src/chat/MessageHandlerService.cpp:12-103 | whatever the modelled request, the object moves by exactly the protocol step of that request and its invariant is kept |
| ChatHandlers.MessageHandlers.Serve | server/src/chat/WsRequestProcessor.cpp:14-33 | any list of modelled requests, those of unknown connections dropped, is a run of the protocol on the object, so a run within a discipline keeps every invariant of that discipline |
| ChatEffects.InitialAuthEffect | server/src/chat/MessageHandlers.cpp:25-55 | naming oneself succeeds exactly with a known name; only the status and user of that session change |
| ChatEffects.InitialRegisterEffect | server/src/chat/MessageHandlers.cpp:57-85 | asking to register succeeds exactly with an unknown name; only the status and user of that session change |
| ChatEffects.AuthEffect | server/src/chat/MessageHandlers.cpp:87-178 | a session that is not logged in is so afterwards if and only if it was authenticating, the credentials are accepted and its name is known; rejected credentials change nothing, otherwise the status alone is reset; the answer is success exactly then |
| ChatEffects.RegisterEffect | server/src/chat/MessageHandlers.cpp:180-228 | a user row under a fresh id is added exactly when the session asked for it, the name is still free and the transaction is committed; the session is not logged in |
| ChatEffects.LeaveRoomEffect | server/src/chat/MessageHandlers.cpp:385-404 | leaving succeeds exactly for a logged-in session in a room: it is then in no room set, everybody in the room hears one farewell, nobody else anything, and nothing else changes |
| ChatEffects.LogoutEffect | server/src/chat/MessageHandlers.cpp:521-536 | logging out succeeds exactly when logged in: a new session, out of its room with a farewell, one connection less for its user |
| ChatEffects.CloseEffect | server/src/controller/WsController.cpp:49-55 | a closed connection is gone from sessions, queues and both indexes, and its room hears one farewell |
| ChatEffects.CreateRoomEffect | server/src/chat/MessageHandlers.cpp:406-466 | a room and its INVITED row appear exactly when somebody logged in asks and the transaction is committed, and every logged-in connection hears of it once |
| ChatEffects.DeleteRoomEffect | server/src/chat/MessageHandlers.cpp:597-644 | a room goes with its rows exactly when a session in it with OWNER or ADMIN rights asks and the transaction is committed; its set is empty, sessions stay, every logged-in connection hears of it once |
| ChatEffects.BecomeMemberEffect | server/src/chat/MessageHandlers.cpp:907-936 | accepted exactly when logged in, for public rooms and with an invitation; at most the row changes and nobody else hears anything |
| ChatEffects.ChangeUsernameEffect | server/src/chat/MessageHandlers.cpp:938-995 | a user is renamed exactly when logged in, the name is free and the transaction is committed; the tables know the user by that name alone, one session changes, every logged-in connection hears of it once |
| RoleEffects.AssignRoleEffect | server/src/chat/MessageHandlers.cpp:646-745 | a role is assigned exactly when a session in the room asks, AssignSucceedsIff allows it and the transaction is committed; exactly the sessions of target and previous owner in the room get the rights of the tables, and the room hears of each of them who is online |
| JoinEffects.JoinFromOutsideEffect | server/src/chat/MessageHandlers.cpp:317-376 | when exactly the row is written and the room entered; then only that session and room set change, each peer hears the user once, or twice when the user was no member, and the newcomer gets members and active users |
| JoinEffects.JoinRoomEffect | server/src/chat/MessageHandlers.cpp:300-383 | a join is a departure, with its farewells to the previous room, followed by JoinFromOutsideEffect; anybody not logged in is refused and nothing changes |
| ChatIndexes.StepKeepsIndexes | server/src/chat/ChatRoomManager.cpp:51-110 | every step keeps the room index equal to the sessions, and the user index too unless it restarts a login |
| ChatIndexes.RestartBreaksUserIndex | server/src/chat/MessageHandlers.cpp:45-78 | a step keeps the user index if and only if it does not restart authentication or registration while logged in |
| ChatIndexes.BroadcastReachesOnce | server/src/chat/ChatRoomManager.cpp:160-166 | a broadcast reaches each authenticated connection exactly once and nobody else |
| ChatIndexes.DepartKeeps | server/src/chat/MessageHandlers.cpp:312-315 | leaving the current room keeps both indexes |
| ChatIndexes.LoginKeeps | server/src/chat/MessageHandlers.cpp:169-171 | logging in keeps both indexes |
| ChatIndexes.ResetKeeps | server/src/chat/MessageHandlers.cpp:530-533 | logging out keeps both indexes |
| ChatIndexes.DroppedKeeps | server/src/chat/ChatRoomManager.cpp:101-105 | dropping a deleted room keeps both indexes although sessions still name the room |
| ChatRights.AssignKeepsRightsIff | server/src/chat/MessageHandlers.cpp:715-736 | after a committed assignment all cached rights are right if and only if it did not demote a connected owner |
| ChatRights.StepKeepsRightsIff | server/src/chat/MessageHandlers.cpp:646-745 | a step keeps every cached right equal to the effective one if and only if it does not demote a connected owner |
| ChatRights.EnterCachesRights | server/src/chat/MessageHandlers.cpp:355-356 | a join caches the effective rights |
| ChatPresence.SendSettles | client/src/wsClient.cpp:288-295 | a sent message acts on the receiver's list after everything queued before it |
| ChatPresence.LeavingExact | server/src/chat/ChatRoomManager.cpp:61-81 | a leaver takes exactly one off its own count on every remaining client, and never triggers an erase |
| ChatPresence.EnteredExact | server/src/chat/MessageHandlers.cpp:358-371 | a joiner adds exactly one to its own count on every client in the room and itself starts with exact counts |
| ChatPresence.JoinFromOutsideExactIff | server/src/chat/MessageHandlers.cpp:317-383 | a join keeps all lists exact if and only if no membership row appears unannounced or goes missing |
| ChatPresence.BecomeMemberExactIff | server/src/chat/MessageHandlers.cpp:907-936 | becoming a member keeps all lists exact if and only if no new member row appears in an occupied room |
| ChatPresence.StepKeepsPresenceIff | server/src/chat/MessageHandlers.cpp:326-376 | a step keeps every list exact if and only if it does not change membership silently |
| ChatRuns.RoomsAgreeWithSessions | server/src/chat/ChatRoomManager.cpp:56-110 | in every run, a room's set is the sessions in that room, no connection is in two sets, no set is empty |
| ChatRuns.UsersAgreeWithSessions | server/src/chat/ChatRoomManager.cpp:51-54 | in every run without login restarts, the user index is the logged-in sessions and a broadcast reaches each once |
| ChatRuns.RightsAgreeWithTables | server/src/chat/MessageHandlers.cpp:756-789 | in every run that also demotes no connected owner, cached rights are the effective rights |
| ChatRuns.PresenceIsExact | client/src/userListPanel.cpp:85-108 | in every run that announces membership, a client in a room lists, once its queue is handled, exactly the members with exact connection counts |
| ChatRuns.NothingIsErased | client/src/userListPanel.cpp:100-105 | in such runs no queued message makes a client erase an entry |
| ChatReachable.ConditionsAreNeeded | server/src/chat/MessageHandlers.cpp:45-46 | a started server runs, within every discipline, to a state in which four requests each break the invariant their condition protects |
| ChatReachable.LogsIn | server/src/chat/MessageHandlers.cpp:45-171 | from any state, a connection that is not logged in and whose credentials are accepted gets the id of its name, keeps its room and changes no table or other session |
| ChatReachable.RegisteredCanLogIn | server/src/chat/MessageHandlers.cpp:57-228 | whoever registers a new name can log in with it at once, under an id nobody had before |
| ChatReachable.RenamedCanLogInIff | server/src/chat/MessageHandlers.cpp:962-982 | after a committed change of names the user can be logged in as under the new name, unless it is empty, and under no other |
| ChatReachable.MemberEnters | server/src/chat/MessageHandlers.cpp:317-356 | a joined member outside all rooms gets in with the rights of the tables, public room or private, and no table changes |
| ChatReachable.InvitedMemberEnters | server/src/chat/MessageHandlers.cpp:907-936 | somebody invited to a private room is refused before, and let in after, becoming a member |
| ChatRuns.LoginsHaveTheirNames | server/src/chat/MessageHandlers.cpp:166-171 | in every run without login restarts in which nobody logged in on several connections changes names, a logged-in session has the id of its name |
| ChatRuns.PrivateRoomsHoldMembers | server/src/chat/MessageHandlers.cpp:324-335 | in every run without login restarts, whatever names change, a logged-in session is one of an existing user and private rooms hold joined members only |
| ChatAccess.StepKeepsAccessIff | server/src/chat/MessageHandlers.cpp:938-995 | every step that restarts no login keeps private rooms, and keeps the names of sessions if and only if it does not rename a user who is logged in on another connection too |
| ChatAccess.JoinEntersIff | server/src/chat/MessageHandlers.cpp:312-356 | a join ends in the room exactly when the room exists, is public or counts the user as a joined member, and no lookup fails; otherwise outside every room |
| ChatRuns.AuthorityIsReal | server/src/chat/MessageHandlers.cpp:610-613 | in every run that demotes no connected owner, whoever deletes a room is OWNER or ADMIN by the tables, and whoever changes a role outranks the target and the role given, transfer by the owner aside |
| ChatAccess.CreatedRoomRights | server/src/chat/MessageHandlers.cpp:425-445 | a new room is fresh and public with its creator as only member and OWNER, and gives nobody else but an ADMIN rights |
| UserList.UserListPanel.AddUser | client/src/userListPanel.cpp:85-94 | one more connection for a listed user, or a new entry |
| UserList.UserListPanel.RemoveUser | client/src/userListPanel.cpp:96-108 | one connection less, or the entry is erased, which is reported exactly |
| UserList.UserListPanel.UpdateUserRole | client/src/userListPanel.cpp:29-37 | changes the role of that user's entry and nothing else |
| UserList.UserListPanel.SetUserList | client/src/userListPanel.cpp:49-83 | the panel holds exactly the given entries, in an order left open |
| UserList.UserListPanel.Enter | client/src/wsClient.cpp:267-287 | a join response leaves the listed users plus the active connections added one by one |
| UserList.EnteredCounts | client/src/wsClient.cpp:267-287 | after a join response the counts are the ones the protocol expects, and roles are as sent |
| UserList.AddedCounts | client/src/userListPanel.cpp:85-94 | on the counts, adding is the protocol's join delta; a listed user changes in nothing but the count and a new one is listed as given |
| UserList.RemovedCounts | client/src/userListPanel.cpp:96-108 | on the counts, removing is the protocol's leave delta; nobody changes in anything but the count |
| UserList.RoleCounts | client/src/userListPanel.cpp:29-37 | a role change shows the new role for that user, no count and nobody else changes |
| UserList.QueueOneMore | client/src/wsClient.cpp:288-295 | handling a queue with one more message is handling it and then that message |
| MigrationFiles.FilenameRoundTripIff | server/src/db/migrations.cpp:18-26 | a file name is read back as its timestamp and name if and only if the timestamp part has no dash |
| MigrationFiles.TimestampRoundTrip | server/src/db/migrations.cpp:28-32 | a printed timestamp is read back whatever non-digit follows, and overflow is an error |
| MigrationFiles.ReadEntryRoundTrip | server/src/db/migrations.cpp:58-75 | a well-named regular file is scanned as itself |
| MigrationFiles.ReadEntryIff | server/src/db/migrations.cpp:58-75 | exactly the regular files named by digits, anything without a dash, a dash and a name are read, with the value of the digits if it fits 64 bits; any other entry is an error |
| MigrationFiles.ScannedTimestampIsNotNegative | server/src/db/migrations.cpp:18-32 | no scanned timestamp is negative or exceeds 64 bits |
| MigrationFiles.ScanMigrationFiles | server/src/db/migrations.cpp:52-79 | all entries readable and sorted by timestamp, or nothing |
| MigrationFiles.SortedOrderIsUnique | server/src/db/migrations.cpp:77 | with distinct timestamps the sorted order does not depend on the listing |
| MigrationFiles.LaterFilesExtend | server/src/db/migrations.cpp:77 | adding later files, listed anywhere, only extends the sorted list |
| MigrationFiles.CommandsRoundTripIff | server/src/db/migrations.cpp:34-50 | commands joined with semicolons are split back if and only if they are trimmed, hold no semicolon and are not the one empty command, since an empty file has none |
| Trimming.TrimIff | server/src/db/migrations.cpp:34-41 | trimming removes white space at the ends only, and is the identity exactly on trimmed strings |
| Splitting.SplitUndoesJoinIff | server/src/db/migrations.cpp:43-50 | splitting undoes joining exactly when no part holds the separator |
| Migrations.Migrator.ApplyMigration | server/src/db/migrations.cpp:81-114 | succeeds if and only if every command succeeds on the schema the one before it left, the timestamp is new and the file can be opened and committed; then it leaves the last schema and the row, else everything as it was |
| Migrations.Migrator.ApplyMigrationFiles | server/src/db/migrations.cpp:130-162 | later files in order up to the first failure |
| Migrations.Migrator.MigrateDatabase | server/src/db/migrations.cpp:164-190 | main.sql when the table cannot be read, then the files |
| Migrations.ExecAllIff | server/src/db/migrations.cpp:97-99 | commands lead to a schema if and only if there is a sequence of schemas with each command succeeding from one to the next |
| Migrations.FileSucceedsIff | server/src/db/migrations.cpp:81-114 | the same condition for the result of a file |
| Migrations.RunReaches | server/src/db/migrations.cpp:130-190 | one run, whatever fails, moves from one applied prefix to another, to the end when it succeeds |
| Migrations.InterruptedRunsCompose | server/src/db/migrations.cpp:94-162 | after any runs over growing directories, some of them missing or unreadable, the rows are main.sql and a prefix of the sorted files last read, and the schema is the fold of that prefix |
| Migrations.LaterFilesGrow | server/src/db/migrations.cpp:58-78 | adding later files to a directory, however it is listed, leaves the sorted list it had as a beginning |
| Migrations.NothingLeftToDo | server/src/db/migrations.cpp:147-161 | after a successful run everything is applied and another run changes nothing |
| Migrations.RunFinishesIff | server/src/db/migrations.cpp:130-162 | after the first k files a run finishes if and only if the remaining files run one after the other and none is broken |
| Migrations.FirstRunFinishesIff | server/src/db/migrations.cpp:164-190 | the first run finishes if and only if main.sql and then every file runs and none is broken |
| Migrations.NoFileTwice | server/src/db/migrations.cpp:102-105 | applied timestamps are strictly increasing |
| Migrations.MainIsNotRepeated | server/src/db/migrations.cpp:164-180 | main.sql is refused once its row exists |
| Migrations.SuccessAppliesLaterFiles | server/src/db/migrations.cpp:131-153 | for any directory, a successful pass applies exactly the files later than everything applied before |
| Migrations.PassSucceedsIff | server/src/db/migrations.cpp:130-162 | for any directory, a pass succeeds if and only if every later file runs, none is broken and no two of them share a timestamp; then it has applied exactly these |
| Migrations.DuplicateIsNeverApplied | server/src/db/migrations.cpp:102-105 | once one of two files with one timestamp is applied, no runs over any directories ever apply the other |
| Migrations.SkippedForGood | server/src/db/migrations.cpp:131-153 | a file not later than the last one applied never gets a row, whatever runs follow |
| RoleMigration.Migration.RunStatements | server/db/migrations/1751446692-room_membership.sql:5-83 | the statements always succeed on valid old tables and produce the migrated tables |
| RoleMigration.MigratedIsValid | server/db/migrations/1751446692-room_membership.sql:76-80 | the final foreign key and all other keys hold |
| RoleMigration.RoomsStayPublic | server/db/migrations/1751446692-room_membership.sql:5-6 | the same rooms with the same owners, none of them private |
| RoleMigration.MigrationPreservesRights | server/db/migrations/1751446692-room_membership.sql:50-68 | every user has the same rights in every room before and after |
| RoleMigration.MembersAreOwnersAndModerators | server/db/migrations/1751446692-room_membership.sql:40-48 | exactly owners and moderators become members, all of them JOINED |
| RoleMigration.LaterRightsAgreeIff | server/db/migrations/1751446692-room_membership.sql:59-67 | after any later change of admins and owners the two encodings agree, except exactly for moderators who were admin or owner at the migration and are neither now |
| SharedMutex.MutualExclusion | common/include/common/utils/asyncSharedMutex.h:60-158 | in every reachable state the counter is -1 exactly when one writer and no reader owns the lock and otherwise the number of readers; two owners are both readers; releasing loses nobody |
| SharedMutex.ExactlyOneWakeUp | common/include/common/utils/asyncSharedMutex.h:105-131 | a suspended request has exactly one task in all queues, on the loop it was suspended on, and is resumed once, on that loop, after acquiring |
| SharedMutex.OwnersSeeNoOtherWrites | common/include/common/utils/guarded.h:36-71 | while a request owns the lock the guarded data changes only by its own writes |
| SharedMutex.FailedExchangeHasACause | common/include/common/utils/asyncSharedMutex.h:115-121 | in any run, the exchange after a load that saw a non-negative counter fails only if another request took or released the lock in between |
| SharedMutex.TasksRunWhereSuspended | common/include/common/utils/asyncSharedMutex.h:105-131 | the loop that takes a task is the one its request was suspended on, although tasks are queued wherever the running thread is |
| SharedMutex.LoopsCanRun | common/include/common/utils/asyncSharedMutex.h:123-131 | no queued task is dangling |
| LockProgress.FreeLockIsTakenAtOnce | common/include/common/utils/asyncSharedMutex.h:101-121 | a request for a lock that nobody excludes it from gets it without being suspended, readers beside other readers |
| LockProgress.FreeLockIsTaken | common/include/common/utils/asyncSharedMutex.h:123-131 | when the spin task of a suspended request runs and the lock can be had, the request ends up owning it |
| LockProgress.OwnerIsResumed | common/include/common/utils/asyncSharedMutex.h:124-126 | when the resumption of an owner runs, its coroutine holds the guard, resumed once |
| LockProgress.ReleaseFrees | common/include/common/utils/asyncSharedMutex.h:60-85 | after a writer the lock is free for everybody, after a reader for readers, and for writers if it was the last |
| LockProgress.OnlyFailureSuspends | common/include/common/utils/asyncSharedMutex.h:115-130 | in any run a request is suspended or queued again only by a load that saw a writer or an exchange that failed |
| SharedMutex.ReleaseKeepsState | common/include/common/utils/asyncSharedMutex.h:81-85 | storing 0 happens only when no reader owns the lock, subtracting only from a positive counter |
| AsyncMutex.AsyncSharedMutex.TryExchange | common/include/common/utils/asyncSharedMutex.h:155-158 | success is ownership: of a writer with nobody else, of a reader with readers only; failure leaves the counter |
| AsyncMutex.AsyncSharedMutex.AwaitSuspend | common/include/common/utils/asyncSharedMutex.h:105-108 | after suspending, the spin task is queued on the running loop and on no other |
| AsyncMutex.AsyncSharedMutex.RunOne | common/include/common/utils/asyncSharedMutex.h:123-131 | a loop runs tasks of requests suspended on it only; a resumption finds its request owning the lock and hands it the guard; what a spin task achieves is LockProgress.FreeLockIsTaken |
| AsyncMutex.AsyncSharedMutex.DropGuard | common/include/common/utils/asyncSharedMutex.h:60-85 | the store of 0 ends the only ownership there is; the subtraction leaves the number of the other readers |
| AsyncMutex.AsyncSharedMutex.WriteData | common/include/common/utils/guarded.h:36-71 | whoever writes the guarded data owns the lock alone |
| AsyncMutex.AsyncSharedMutex.Interleave | common/include/common/utils/asyncSharedMutex.h:60-158 | any schedule of atomic steps, performed on the object, is a run of the lock and keeps its invariant |
| Utf16.GetUnicodeLength | client/src/textUtil.cpp:829-848 | the number of decoded code points |
| Utf16.UnicodeLeft | client/src/textUtil.cpp:859-882 | a prefix that decodes to the first code points and never ends inside a pair |
| Utf16.TextEntry.LimitTextLength | client/src/textUtil.cpp:990-1016 | queues an update exactly for too long a text: its first code points, with the cursor as it is now; nothing changes at once |
| Utf16.TextEntry.RunUpdate | client/src/textUtil.cpp:1004-1014 | a deferred update sets text and clamped cursor, and the text event it causes queues nothing: the result does not trigger again |
| Utf16.TextEntry.Idle | client/src/textUtil.cpp:1004-1014 | once the event loop has caught up the text is short enough, and is that of the last update whatever was typed since |
| Utf16.TypeAndIdle | client/src/textUtil.cpp:990-1016 | too long a text ends as its longest allowed beginning with the cursor clamped, any other text as typed |
| Utf16.CutSplits | client/src/textUtil.cpp:859-882 | decoding a string is decoding the parts on both sides of a cut between characters |
| Utf16.PiecesOfFlatIff | client/src/textUtil.cpp:919-931 | characters are read back from their units exactly when no two neighbours would merge |
| Utf16.PairValueIsRfc2781 | client/src/textUtil.cpp:1077 | the decoding expression is section 2.2 of RFC 2781 and section 2.1 inverts it |
| Utf16.EncodeInverts | client/src/textUtil.cpp:1071-1080 | encoding a code point as in section 2.1 of RFC 2781 and decoding it gives it back |
| Utf16.EncodeUndoesDecode | client/src/textUtil.cpp:829-848 | every string, lone surrogates included, is what its code points encode to |
| Utf16.DecodeUndoesEncodeIff | client/src/textUtil.cpp:829-848 | code points survive encoding exactly when no high surrogate stands before a low one |
| WrapText.WrapText | client/src/textUtil.cpp:884-976 | the loop computes: every paragraph cut greedily, every line trimmed, newlines between |
| WrapText.LinesAreACut | client/src/textUtil.cpp:957-967 | the untrimmed lines concatenate to the paragraph and each fits or is a single character |
| WrapText.LinesAreFewest | client/src/textUtil.cpp:957-967 | no other cut into such lines has fewer |
| WrapText.StaysAhead | client/src/textUtil.cpp:957-967 | dropping characters from the front never costs a line |
| WrapTextLaws.WrappedTwice | client/src/textUtil.cpp:884-976 | wrapping is idempotent |
| WrapTextLaws.PiecesOfWrapped | client/src/textUtil.cpp:913-931 | the characters of the result are the wrapped characters: no pair is separated and none appears |
| WrapTextLaws.WrappedAcrossNewline | client/src/textUtil.cpp:939-944 | texts joined by a newline are wrapped one by one |
| WrapTextLaws.OnlyWhiteSpaceChanges | client/src/textUtil.cpp:913-975 | without white space, the characters before and after are equal and in order |
| WrapTextLaws.WrappedLinesFit | client/src/textUtil.cpp:957-967 | every line of the result fits or is a single character |
| Sanitize.LowerBound | client/src/textUtil.cpp:784-792 | the first range that does not end before the code point |
| Sanitize.IsAlphanumeric | client/src/textUtil.cpp:781-795 | true exactly when some range of the table contains the code point |
| Sanitize.CheckSurrogates | client/src/textUtil.cpp:1044-1062 | true exactly when no surrogate is alone |
| Sanitize.FindLetter | client/src/textUtil.cpp:1064-1093 | true exactly when some code point is alphanumeric; every low surrogate it reads is there |
| Sanitize.SanitizeInput | client/src/textUtil.cpp:1033-1101 | the trimmed input if it is well formed and has a letter, else empty |
| Sanitize.SanitizedTwice | client/src/textUtil.cpp:1033-1101 | the result is empty or a trimmed, well-formed part of the input with a letter, and sanitising again changes nothing |
| Sanitize.SanitizedIff | client/src/textUtil.cpp:1033-1101 | the result is not empty if and only if the input is white space around a trimmed, well-formed part with a letter, and then it is that part |
| Sanitize.SanitizedSameIff | client/src/textUtil.cpp:1033-1101 | an input is left alone exactly when it is empty or already clean |
| MessageWindow.OlderPageMoves | client/src/messageView.cpp:119-131 | an older page moves the window back by its size |
| MessageWindow.NewerPageMoves | client/src/messageView.cpp:132-156 | a newer page moves the window forward by its size |
| MessageWindow.OlderPage | server/src/chat/MessageHandlers.cpp:483-497 | the server answers with the messages just before the window, newest first |
| MessageWindow.NewerPage | server/src/chat/MessageHandlers.cpp:483-497 | the server answers with the messages just after the window, oldest first |
| MessageWindow.LiveMessageIff | client/src/messageView.cpp:107-156 | at once after a live message the window is contiguous if and only if it was empty, or no older page is awaited and the newest message is shown |
| MessageWindow.WindowIsContiguous | client/src/messageView.cpp:107-157 | in every orderly session the window is a contiguous, ascending slice of at most 100 messages |
| MessageWindow.StepKeepsWindowIff | client/src/messageView.cpp:255-271 | a step keeps window, flags and outstanding request consistent if and only if it is orderly |
| MessageWindow.OlderPagesEnumerate | client/src/messageView.cpp:255-262 | the first n older pages are the last 25n messages, each exactly once |
| WindowMoves.OpenedShowsNewest | client/src/messageView.cpp:31-34 | opening, or jumping to the present, shows the newest page |
| WindowMoves.ScrolledUp | client/src/messageView.cpp:73-83 | scrolling up shows one page more at the top and at most 100 messages |
| WindowMoves.ScrolledDown | client/src/messageView.cpp:73-83 | scrolling down shows one page more at the bottom and at most 100 messages |
| WindowMoves.NewerPagesEnumerate | client/src/messageView.cpp:264-271 | n newer pages lead 25n messages down, without a gap, to the newest |
| WindowMoves.DeletedIsGone | client/src/messageView.cpp:303-316 | a deletion takes exactly the message with the id from what is shown |
| AwaitedPages.PostDrainsIff | client/src/messageView.cpp:107-157 | once what is awaited has arrived, a live message has left the window contiguous if and only if the awaited request has nothing to deliver and the window was empty, or no older page is awaited and the newest message was shown |
| AwaitedPages.PostDrainsWhenIdle | client/src/messageView.cpp:255-271 | if nothing shown was deleted since the request, that is if and only if nothing is awaited and the window is empty or shows the newest message |
| AwaitedPages.DeletedSinceAsked | client/src/messageView.cpp:303-316 | a session that deletes in between, awaits a page, and still takes a live message without harm |
| AwaitedPages.LiveMessageShownTwice | client/src/messageView.cpp:132-156 | when a newer page is awaited, nothing shown was deleted since and the newest message is shown, a live message is shown twice |
| AwaitedPages.ReopenedShowsAll | client/src/messageView.cpp:31-34 | whatever is shown and however many pages are awaited, reopening ends with the first of them prepended, all others and the newest page appended, and the last 100 of that kept |
| AwaitedPages.ReopenedShows | client/src/messageView.cpp:203-211 | reopening while a page is awaited shows exactly that page, an older one ascending and a newer one descending, and then the newest page descending |
| AwaitedPages.StartDrainsIff | client/src/messageView.cpp:299-301 | once everything awaited has arrived, a reopened view shows a stretch of the history if and only if nothing was awaited, or the history has at most one message and every awaited page is empty, from any state and for any number of pages |
| MessageView.MessageView.constructor | client/src/messageView.cpp:12-29 | 125 widgets, all in the pool |
| MessageView.GenericCacher.GetInstance | client/include/client/messageView.h:17-28 | the oldest pooled widget, or a new one only when the pool is empty |
| MessageView.GenericCacher.ReturnInstance | client/include/client/messageView.h:31-34 | the widget goes hidden to the end of the pool |
| MessageView.MessageView.OnMessagesReceived | client/src/messageView.cpp:107-160 | shows exactly the specified window, asks for exactly the specified row, clears both flags, and with a page-sized batch keeps all 125 widgets and makes none |
| MessageView.MessageView.TrimWidgets | client/src/messageView.cpp:227-245 | keeps the first or last 100 and returns the rest to the pool |
| MessageView.MessageView.DeleteMessageById | client/src/messageView.cpp:303-316 | the message leaves the window, its widget goes to the pool |
| MessageView.MessageView.Clear | client/src/messageView.cpp:203-211 | every widget goes to the pool |
| MessageView.MessageView.LoadOlderMessages | client/src/messageView.cpp:255-262 | asks for the page before the oldest message shown, unless one is awaited |
| MessageView.MessageView.LoadNewerMessages | client/src/messageView.cpp:264-271 | asks for the page after the newest message shown, unless one is awaited or nothing is shown |
| RoomView.RoomView.Handle | client/src/wsClient.cpp:607-625 | every event moves the object by exactly one step of the session and keeps the stock of 125 widgets |
| RoomView.RoomView.Attend | client/src/messageView.cpp:107-316 | over any sequence of events every widget stays in exactly one of deque and pool and none is made; after orderly events the object shows a contiguous, ascending slice of at most 100 messages |
| MessageView.RemovedHeightIsDropped | client/src/messageView.cpp:133-149 | the precomputed height is what trimming drops, up to new messages that are dropped at once |
| MessageView.FirstBatchShowsTheEnd | client/src/messageView.cpp:126-128 | after the first batch the last message is at the bottom of the view |
| MessageView.LiveMessageJumpsIff | client/src/messageView.cpp:133-152 | a live message makes the view jump to its end if and only if the bottom was shown, give or take five rows |
| MessageView.OlderBatchKeepsPlace | client/src/messageView.cpp:119-131 | after an older batch the requested row shows the same message at the same offset if it is still there |
| MessageView.NewerBatchKeepsPlace | client/src/messageView.cpp:132-156 | the same after a newer batch; if the message was dropped the top is asked for |

## Left out

- Interleaving of whole handlers: handlers run one at a time, so two joins that miss each other's broadcast, and deadlock or fairness of the locks they take, are not modelled.
- The session objects: ChatRoomManager reaches them through the connections; here one map holds them, so locking and aliasing of a session are not captured (`isHolding` included).
- UserList.UserListPanel.SortUsers: keeps the entries but says nothing about their order, because the comparison of the source is not a strict order.
- Transactions.Database.WithTransaction: the library commits a transaction when its last reference goes; that is folded into Commit, and a rolled back transaction just stays uncommitted.
- The user list while the client is outside a room: the model keeps the last list, the client hides it and replaces it on the next join.
- Roles shown in other clients' lists: a role change of a user without connections is not broadcast, so shown roles are not claimed to be exact.
- Names: empty, too long and malformed names are refused requests; UTF-8 validation, room names and user names in messages are not modelled.
- Other requests: sending and deleting messages as handlers, renaming rooms, typing, salts and password changes add no new state to the properties above.
- Sequences handing out ids may skip values in PostgreSQL; here they count up.
- Exceptions between two messages of one handler, and a failing getUsersInRoom, are not modelled.
- Migrations.Migrator.MigrateDatabase: the reading of directory entries that throws, and quitting the application, are not modelled.
- Indexes, enumeration types and column types of the role migration; only rows and keys are.
- SharedMutex.MutualExclusion: sequentially consistent atomics and an unbounded reader count; memory orders and counter overflow are not modelled, nor is a coroutine destroyed while it waits.
- AsyncMutex.AsyncSharedMutex.Interleave: the coroutine frames are the entries of `awaiters`, and the guarded data is its version number.
- The literal range table of letters and digits: the search is proved for every sorted, disjoint table.
- WrapText.WrapText: floating-point rounding of measured widths and the graphics context behind them.
- MessageWindow.WindowIsContiguous: a page is computed and received in one step, limits of 0 are not asked for, and the view belongs to one room.
- MessageView.MessageView.OnMessagesReceived: widget positions, visibility, re-wrapping on resize, the snap state and clamping of the requested row by the window system.
- URL validation, server list, configuration, account panels, HTTP endpoints and ORM classes: easy, input/output only, or generated.

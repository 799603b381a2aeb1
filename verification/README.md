# kd48: verified models

This project models the parts of the kd48 game backend whose behaviour depends on interleaving, on
string parsing or on order, and proves what they keep.

- **Sessions and devices.** A login runs one Redis script that replaces the user's token
  (`SessionStore`). A gateway keeps tables of connections, users, heartbeats and counters
  (`Heartbeat`, `Connections`). The two meet in `Displacement`: scripts, publishes, binds, kicks,
  sweeps and closings of every gateway interleave freely, and in orderly runs an account never holds
  two open connections (`OneDevice`). `Removal` follows one client through a whole run of the manager,
  `Kicks` says which connection a kick closes and whose stays open, and `DisplacementLimits` what goes
  wrong in runs that are not orderly.
- **The gateway's frames and routes.** `Handler` is the loop that serves one connection against route
  tables that may be swapped between any two frames. `RouteBuild` computes a table from two etcd reads,
  `KeyOrder` says what the order of their keys decides, and `RouteManager` publishes the table, drains old
  connections and reloads it, with timer-driven and loop-driven rebuilds racing over a revisioned store.
  `RouteRuns` says what every run keeps, and `RouteLimits` holds the runs that come to rest with a stale
  table.
- **The config tool.** `CellParser` is the cell language with its loops; `CellLaws` says what cells
  mean, `CellRoundTrip` and `MapRoundTrip` what prints and parses back. `Sheets` takes CSV records to
  rows of named cells, and `TypeAgreement` compares the generated JSON with the generated Go types.
- **Pool routing and config revisions.** `Routing` is the longest-prefix table and its router;
  `LobbyConfig` is the path from an inserted revision to the lobby's snapshot, also when the routes change
  the database it reads.

`Text` holds the pieces of Go's `strings` and `strconv` that the rest uses; `Wrappers` holds `Option`
and `Result`. What an operation computes is also said without the functions it is made of: `TextLaws` and
`CellMeaning` of raw text, `BuildLaws` and `StoreLaws` of records and writes, `Idling` of the operations of a
run, `DisplacementSteps` and `RouteSteps` of single steps, `TypeMeaning` of JSON and Go types. Code that works step by step is a class or a method with loops, proved equal to a function
on values; the theorems are about those functions, or about runs of steps made of them.

Where the code and its documentation disagree the model follows the code. The cell parser falls back to
the first `=` when none is outside quotes, splits on `|` inside quotes too, and undoes no escapes. The
lobby's query reads a column `data` where the table has `json_payload`; the model takes either as the
payload. `pkg/dsroute/doc.go` says the router has no hot reload, but `UpdateRoutes` is one. The sweep and
the kick count a disconnect each, also when the kick finds a dangling entry. `RecordActivity` does not
extend the heartbeat deadline, although its comment calls for it on every message.

What a string is: a sequence of Unicode code points. Quotes, `=`, `|`, `/` and digits are ASCII, so
splitting by code points is splitting by bytes, and the byte order of UTF-8 text is the order of its code
points. Counters and revisions are unbounded integers; parsed numbers carry their 32-bit or 64-bit range.

Assumptions a theorem needs are in its `requires`: tokens are fresh and not empty, a session lives at
least a second, connection ids are never reused, the clock does not run backwards, etcd reads are
linearizable, where no write may be lost both etcd prefixes lie under the watch prefix, and for config
revisions a database that an update of the routes points the lobby at holds every row of the one before.
Announcements name rows of the table the lobby then reads. What fails without these is a lemma too, and a
run from the start of the system where a whole run goes wrong: `ShortLivedSessions`, `ReusedIdIsUnwatched`,
`CountCanDrift`, `KeyOrderDecidesTies`, `KeyOrderDecidesConnections`, `FailedReloadIsNotRetried`,
`TypeWriteInGapIsMissed`, `WriteBeforeSubscribingIsMissed`, `RedirectLowersTheRevision`, and all of
`DisplacementLimits`.

What an orderly run asks, for one open connection per user (`OneDevice`); a gateway counts only while it
holds a connection that a kick of the user would close:

- a displacement that is published reaches those gateways (else `SilentReloginLeavesTwo`);
- a login binds only when they have handled its invalidate (else `LateKickClosesTheNewConnection`);
- it binds before its user's next script, or at least while every later login is unbound and its invalidate
  has still to be published or to be handled at its gateway (else `LateReplyLeavesTwo`);
- no session has expired under an open connection when its user logs in again (else `ExpiryLeavesTwo`).

Nothing is asked of logins that never bind: a client may log in, drop, and log in again while its first
invalidate is still queued. What a kick may close, and whose connection stays, needs more, because an
invalidate names only the user (`Kicks`):

- a displacement is published before its login is given up (else `UnannouncedLeavesTheOldConnection`), and
  at a late bind every published later login still waits at the gateway, also when it was given up (else
  `LateReplyOutlivesTheLatest`);
- a user's displacements are published in the order of the logins (else
  `OvertakingKickClosesAnothersConnection`), and those up to a login are published, and handled at its
  gateway, when it binds (else `StaleKickClosesANewerConnection` and `OwnKickClosesTheConnection`).

Logins that displace nothing have nothing to publish and are in nobody's way.

## Model

| member | source | states |
|---|---|---|
| SessionStore.KeysApart | services/user/cmd/user/server.go:95-96 | user keys and session keys are each injective and never collide, so one flat keyspace is safe |
| SessionStore.OneOwner | services/user/cmd/user/server.go:97 | a session value `id:name` belongs to one user id, whatever the name contains |
| SessionStore.ValueKeepsBoth | services/user/cmd/user/server.go:97 | a session value keeps both the user id and the name, whatever the name contains |
| SessionStore.WrittenAs | services/user/cmd/user/server.go:95-97 | keys and value are their fields joined by colons |
| SessionStore.ScriptCompletes | services/user/cmd/user/server.go:44-52 | on any database a script with a TTL of a second or more replaces the user's live token, stores both keys to expire at now plus the TTL and answers the token it found, if any |
| SessionStore.ClockShowsElapsed | services/user/cmd/user/server.go:49-50 | scripts take no time; only waiting moves the clock that expires keys |
| SessionStore.Redis.EvalLoginSession | services/user/cmd/user/server.go:44-52 | the script's GET, DEL, SETEX, SETEX and reply take the database to `LoginScript`, also when a SETEX fails half way |
| SessionStore.Redis.IssueSessionAtomic | services/user/cmd/user/server.go:87-118 | a failed script is an error; otherwise the token comes back with `hasOldToken` true exactly for a non-empty reply |
| SessionStore.ScriptEffect | services/user/cmd/user/server.go:44-52 | on a faithful database the script deletes exactly the user's live session, if any, and stores the two new keys with one expiry |
| SessionStore.IssueKeeps | services/user/cmd/user/server.go:44-52 | a script keeps the database equal to what the history of logins says |
| SessionStore.RunsAreFaithful | services/user/cmd/user/server.go:44-52 | after any run of scripts and clock advances the database holds exactly what the history of logins says |
| SessionStore.SessionBijection | services/user/cmd/user/server.go:44-52 | in every run the user key is live with a token exactly when that token's session key is live and owned by the user, with the same expiry |
| SessionStore.OneLiveToken | services/user/cmd/user/server.go:44-52 | a user never has two live tokens |
| SessionStore.TokenConservation | services/user/cmd/user/server.go:105-117 | every issued token is exactly one of live, displaced while live by the user's next login, or expired, and `hasOldToken` is true exactly for a login that displaced one |
| SessionStore.DisplacedForGood | services/user/cmd/user/server.go:46-48 | a displaced token's session key stays absent however the run goes on |
| SessionStore.ShortLivedSessions | services/user/cmd/user/server.go:107 | a script keeps the bijection exactly when the TTL is at least a second or the user has no live session |
| Heartbeat.HeartbeatManager.RecordPing | gateway/internal/ws/heartbeat.go:44-62 | a ping resets the missed count and both ping and activity times, or starts a live record |
| Heartbeat.HeartbeatManager.RecordPong | gateway/internal/ws/heartbeat.go:67-75 | a pong resets the missed count and the pong time of a known record |
| Heartbeat.HeartbeatManager.RecordActivity | gateway/internal/ws/heartbeat.go:79-86 | activity moves the activity time and nothing else |
| Heartbeat.HeartbeatManager.CheckTimeout | gateway/internal/ws/heartbeat.go:103-127 | a check counts one miss of an overdue live record, and is true exactly when it kills the record |
| Heartbeat.MissedCountExact | gateway/internal/ws/heartbeat.go:44-127 | the missed count of a live record is the number of overdue checks since its last ping or pong, measured from the last pong if there was one |
| Heartbeat.DiesOfConsecutiveMisses | gateway/internal/ws/heartbeat.go:103-127 | a record dies only of a check, after exactly MaxMissed overdue checks with no timely one between |
| Heartbeat.DeadStaysDead | gateway/internal/ws/heartbeat.go:107-110 | no later ping, pong, activity or check revives a dead record |
| Heartbeat.RemovedInTime | gateway/internal/ws/heartbeat.go:103-127 | a record last pinged or ponged at t is dead by the MaxMissed-th check after t plus the timeout, whatever activity it sees |
| Heartbeat.ActivityDoesNotKeepAlive | gateway/internal/ws/heartbeat.go:79-127 | a record that sees only activity after its first ping is dead by the MaxMissed-th check more than a timeout after it |
| Connections.ConnectionManager.RegisterConnection | gateway/internal/ws/connection_manager.go:52-75 | an id already registered changes nothing and gives false; a new one is stored, counted twice and given a ping |
| Connections.ConnectionManager.UnregisterConnection | gateway/internal/ws/connection_manager.go:78-103 | a registered id is dropped and uncounted, and just one of the user entries naming it goes |
| Connections.ConnectionManager.RegisterUserConnection | gateway/internal/ws/connection_manager.go:238-243 | the user entry names the connection, registered or not |
| Connections.ConnectionManager.DisconnectByUserID | gateway/internal/ws/connection_manager.go:254-284 | a kick drops the user entry and the connection it names, counts a disconnect even on a dangling entry, and returns the socket to close |
| Connections.ConnectionManager.CheckAllConnections | gateway/internal/ws/connection_manager.go:135-174 | one sweep checks every connection once, at two clock readings of its own, and drops exactly the overdue and the idle, counting each |
| Connections.ConnectionManager.FindTimedOut | gateway/internal/ws/connection_manager.go:142-158 | the scan collects exactly the overdue and exactly the idle, in whatever order it visits them |
| Connections.ConnectionManager.DisconnectAll | gateway/internal/ws/connection_manager.go:160-200 | dropping a set of connections leaves user entries alone and counts each drop |
| Connections.RegisterExactly | gateway/internal/ws/connection_manager.go:52-75 | entry by entry what registering changes: the connection stored as it came, two counters, a record heard from now |
| Connections.UnregisterExactly | gateway/internal/ws/connection_manager.go:78-103 | entry by entry what closing changes: that connection, one user entry naming it if there is any, the active count |
| Connections.KickExactly | gateway/internal/ws/connection_manager.go:254-284 | entry by entry what a kick changes: the user entry and the connection it names, two counters |
| Connections.CounterDrift | gateway/internal/ws/connection_manager.go:52-103 | in every run 0 <= active <= connections, the gap is at most the kicks on dangling entries, total is connections plus removals, disconnected is timeouts plus all kicks, and failures is the records that died |
| Connections.ActiveIsExactWithoutDanglingKicks | gateway/internal/ws/connection_manager.go:263-271 | with no kick on a dangling entry the active count is the number of connections |
| Connections.KickKeepsCountExact | gateway/internal/ws/connection_manager.go:254-283 | an exact count stays exact over a kick if and only if the entry is not dangling or no connection is left |
| Connections.CountCanDrift | gateway/internal/ws/connection_manager.go:187-189 | under any configuration a run in which a user whose connection timed out is kicked, and the count reads 0 with another connection open |
| Connections.EveryConnectionMonitored | gateway/internal/ws/connection_manager.go:61-66 | in every run with ids never reused each registered connection has a live heartbeat record below MaxMissed |
| Connections.SweepLeavesNoOverdue | gateway/internal/ws/connection_manager.go:135-174 | after a sweep every remaining connection is alive, below MaxMissed, and not idle beyond a positive idle timeout |
| Connections.SweepDropsExactly | gateway/internal/ws/connection_manager.go:142-174 | for any registered connection: a sweep drops it if and only if it has a live record whose last pong, or else last ping, is more than the timeout ago for the last miss allowed, or a record inactive for more than a positive idle timeout |
| Connections.ReusedIdIsUnwatched | gateway/internal/ws/heartbeat.go:107-110 | registering an id whose record died leaves a connection no sweep will find overdue |
| Removal.RecordFollowsTimeline | gateway/internal/ws/connection_manager.go:52-75 | in every run the heartbeat record of a client is what the registrations, pings, pongs, activities and sweeps that concern it lead to |
| Removal.MissedCountInRuns | gateway/internal/ws/connection_manager.go:142-158 | in every run the missed count of a registered connection is the number of overdue sweeps since it was last heard, and below MaxMissed |
| Removal.SilentConnectionsAreDropped | gateway/internal/ws/connection_manager.go:142-166 | in every run a connection still registered has met fewer than MaxMissed sweeps more than a timeout after it was last heard, whatever activity it reported |
| Removal.BusyConnectionsAreDropped | gateway/internal/ws/handler.go:106-109 | a connection that is never pinged or ponged for and is still registered has met fewer than MaxMissed sweeps more than a timeout after it registered, however busy it is |
| Idling.ActivityInRuns | gateway/internal/ws/heartbeat.go:44-86 | in every run the activity time of a registered connection is that of its last registration, ping or activity |
| Idling.IdleSweepDropsExactly | gateway/internal/ws/connection_manager.go:149-174 | in every run a sweep that does not find a connection dead drops it if and only if the idle timeout is positive and its reading is later than that after the last registration, ping or activity |
| Idling.SweepDropsInRuns | gateway/internal/ws/connection_manager.go:142-174 | in every run a sweep drops a connection if and only if it is the last overdue one allowed since the connection was heard, or the connection was idle too long |
| Displacement.StepKeepsInv | gateway/internal/ws/connection_manager.go:238-283 | every orderly step keeps the invariant: a kick would find each open bound connection, and every later login of its user displaced a session, is unbound and, once answered, waits there |
| DisplacementSteps.BindOpens | gateway/internal/ws/handler.go:171-184 | a bind of a positive signed 64-bit id names the connection under the user, and opens it if it is still registered; any other id leaves no trace |
| DisplacementSteps.InvalidateKicks | gateway/internal/ws/session_subscriber.go:58-70 | a handled invalidate is the front one; it removes the user's entry and the connection that names at its gateway, and changes nothing else |
| DisplacementSteps.PublishReaches | services/user/cmd/user/server.go:157-164 | a publish appends to exactly the inboxes it reaches, and only a login that displaced a session reaches any |
| DisplacementSteps.ScriptIssues | services/user/cmd/user/server.go:87-118 | on any database a script adds one login that replaced the token live for the user, or none when its TTL is refused |
| OneDevice.OneOpenConnectionPerUser | gateway/internal/ws/handler.go:171-184 | in every orderly run at most one login of a user holds an open connection, across all gateways; gateways that hold nothing of the user may miss or delay any invalidate, and replies may be bound late while the later logins are still to be handled |
| Kicks.KickHitsOnlyTheDisplaced | gateway/internal/ws/session_subscriber.go:58-70 | if moreover a user's displacements are all published, in order, and at a bind those up to that login are over at its own gateway, each handled invalidate closes at most the connection of the login it displaced, at its own gateway |
| Kicks.OpenConnectionIsLatest | services/user/cmd/user/server.go:157-164 | if moreover every displacement is published, an open connection is the latest login's once no displacement by its user is still to be published, or to be handled at its own gateway |
| Kicks.LatestExactlyWhenQuiet | services/user/cmd/user/server.go:157-164 | where displacements are also published and handled in order, an open connection is the latest login's if and only if nothing by its user is still to be published, or to be handled at its gateway |
| DisplacementLimits.SilentReloginLeavesTwo | services/user/cmd/user/server.go:215 | a run from the start in which a displacement that is not published leaves a user with two open connections |
| DisplacementLimits.ExpiryLeavesTwo | services/user/cmd/user/server.go:49-51 | a run in which a session that expires under its open connection leaves two open |
| DisplacementLimits.UnannouncedLeavesTheOldConnection | services/user/cmd/user/server.go:162-164 | an orderly run in which a login given up before publishing leaves the old connection open |
| DisplacementLimits.OvertakingKickClosesAnothersConnection | gateway/internal/ws/connection_manager.go:256-278 | a run in which an invalidate that overtakes another closes the connection of a login it did not displace |
| DisplacementLimits.StaleKickClosesANewerConnection | gateway/internal/ws/connection_manager.go:256-278 | a run in which the late invalidate of a login that never bound closes a newer login's connection |
| DisplacementLimits.LateKickClosesTheNewConnection | gateway/internal/ws/connection_manager.go:256-278 | a run in which an invalidate handled after its own login's bind finds two open connections, closes the new one and leaves the old one open |
| DisplacementLimits.LateReplyLeavesTwo | gateway/internal/ws/handler.go:171-184 | a run that keeps every clause up to its last step, a bind of an earlier login after the next one's, and ends with two open connections and no invalidate waiting |
| DisplacementLimits.LateReplyOutlivesTheLatest | gateway/internal/ws/handler.go:171-184 | an orderly run in which a login bound after the next one was handled and given up holds the open connection, with nothing outstanding |
| DisplacementLimits.OwnKickClosesTheConnection | gateway/internal/ws/connection_manager.go:256-278 | an orderly and announced run in which a login bound while its own invalidate waits is closed by it |
| Handler.AtomicRouter.Store | gateway/internal/ws/atomic_router.go:52-57 | storing replaces the whole table, and storing nil empties it |
| Handler.AtomicRouter.Get | gateway/internal/ws/atomic_router.go:60-66 | a lookup answers from the current table |
| Handler.ServeWS | gateway/internal/ws/handler.go:85-191 | the loop does for each frame what `Served` says and reads nothing after it breaks |
| Handler.GateHolds | gateway/internal/ws/handler.go:129-143 | a frame's route is invoked if and only if its snapshot has it and it is public there or an earlier frame established a session |
| Handler.AuthenticatedMeansEstablished | gateway/internal/ws/handler.go:172-173 | the connection is authenticated exactly when an earlier frame succeeded on an establishing route |
| Handler.OneResponseEach | gateway/internal/ws/handler.go:99-169 | every frame read but a ping gets exactly one response and a ping gets one pong attempt (section 5.5.2 of RFC 6455); refusals end the loop |
| Handler.ReadsUntilStopped | gateway/internal/ws/handler.go:85-191 | frames are read up to the first that stops the loop, and no further |
| Handler.StopsExactly | gateway/internal/ws/handler.go:85-168 | the loop stops at exactly the frames that cannot be read, are refused, or fail to establish a session |
| Handler.CodesExactly | gateway/internal/ws/handler.go:106-169 | every response carries the code of its frame, each in exactly its case, and exactly pings and replies count as activity |
| Handler.BindsExactly | gateway/internal/ws/handler.go:171-184 | a frame binds a user if and only if its route was invoked, establishes a session and replied with that positive id |
| Handler.BoundOnlyOnLogin | gateway/internal/ws/handler.go:172-184 | a user is bound only by a successful establishing call that named a positive id |
| Handler.FailedLoginEnds | gateway/internal/ws/handler.go:153-168 | a failed establishing call ends the connection; any other failed call does not |
| Handler.OnlyOwnBindingsCount | gateway/internal/ws/handler.go:129-136 | however snapshots are swapped, a frame's snapshot counts only through its binding of the method called, and only from that frame on |
| RouteBuild.TrimmedSuffix | gateway/internal/bootstrap/validate.go:9-21 | the two trimming loops compute the key suffix, empty for a key outside the prefix |
| RouteBuild.SuffixMeaning | gateway/internal/bootstrap/validate.go:9-21 | a name is a key's suffix if and only if it has no slash at either end and the key is prefix, slashes, name, slashes |
| RouteBuild.DialTypes | gateway/internal/bootstrap/build.go:47-79 | the type loop keeps the last dialled connection of each type and closes exactly the ones it replaced |
| RouteBuild.PickWinners | gateway/internal/bootstrap/build.go:85-111 | the route loop keeps for each method the winner of the records seen |
| RouteBuild.Build | gateway/internal/bootstrap/build.go:22-131 | the whole build equals `BuildOutcome`, with its five errors in the source's order, and every connection it opened is returned or closed |
| RouteBuild.WinnerExists | gateway/internal/bootstrap/build.go:98-110 | a method has a winner exactly when a usable record claims it, and the winner is such a record |
| RouteBuild.WinnerIsGreatest | gateway/internal/bootstrap/build.go:107-110 | no usable record of a method has a greater route id than the winner |
| RouteBuild.BuildBindsExactly | gateway/internal/bootstrap/build.go:85-123 | a method is bound if and only if some valid route for it names a dialled type; it is bound as one with the greatest route id, to the last connection dialled for its type |
| BuildLaws.TypeCounts | gateway/internal/bootstrap/validate.go:23-45 | which type records are dialled, field by field and by the form of their key |
| BuildLaws.RouteCounts | gateway/internal/bootstrap/validate.go:47-67 | which route records are usable, field by field and by the form of their key |
| BuildLaws.GreaterIsLexicographic | gateway/internal/bootstrap/build.go:107-110 | route ids are compared as Go compares strings |
| BuildLaws.BuildFailsExactly | gateway/internal/bootstrap/build.go:22-83 | each of the five errors comes in exactly its case, and otherwise the build succeeds |
| BuildLaws.BuildKeeps | gateway/internal/bootstrap/build.go:47-131 | a build keeps exactly the last connection dialled for each type, and its revision follows the later read |
| KeyOrder.BuildIgnoresKeyOrder | gateway/internal/bootstrap/build.go:47-111 | with distinct trimmed suffixes the result does not depend on key order |
| KeyOrder.KeyOrderDecidesTies | gateway/internal/bootstrap/build.go:107-110 | permuting the records of a list leaves the winners alone if and only if the top records of each method say the same |
| KeyOrder.KeyOrderDecidesConnections | gateway/internal/bootstrap/build.go:47-79 | permuting the type records leaves the kept connections alone if and only if dialled records of one type key have one connection |
| StoreLaws.TypesFound | gateway/internal/bootstrap/build.go:23-30 | a read of the types finds, in key order, exactly the last puts under the prefix that were not deleted since |
| StoreLaws.RoutesFound | gateway/internal/bootstrap/build.go:31-38 | and so does a read of the routes |
| RouteManager.Manager.Bootstrap | gateway/internal/bootstrap/manager.go:53-79 | a successful build replaces revision, table and connections, hands the old ones over for draining and closes exactly the replaced dials; a failed one is returned and changes, drains and closes nothing |
| RouteManager.Manager.ScheduleReload | gateway/internal/bootstrap/manager.go:81-92 | the timer is armed, whether or not it was |
| RouteManager.Manager.Close | gateway/internal/bootstrap/manager.go:133-140 | the active connections are closed and forgotten; the published table stays |
| RouteManager.StepsAreBootstrap | gateway/internal/bootstrap/manager.go:53-79 | the six steps of a rebuild, with nobody else's between them, do to the fields and the connections what Bootstrap does |
| RouteManager.FailedStepsChangeNothing | gateway/internal/bootstrap/manager.go:57-60 | a rebuild that fails before or after its first read leaves fields, table and every connection as they were |
| RouteSteps.TableMoves | gateway/internal/bootstrap/manager.go:61-66 | the table changes by the publication of the build under way and by nothing else, nextWatchRev by the store of its revision |
| RouteSteps.ConnectionsMove | gateway/internal/bootstrap/manager.go:61-78 | which step opens, activates, drains or closes a connection |
| RouteSteps.TimerMoves | gateway/internal/bootstrap/manager.go:81-92 | the reload timer is armed by a delivered watched write and by nothing else, and each firing leaves one rebuild waiting |
| RouteSteps.WatchMoves | gateway/internal/bootstrap/manager.go:95-129 | the watch opens at the revision loaded, delivers forwards, and is loaded again only after the watch loop's own rebuild |
| RouteRuns.ConnectionLifecycle | gateway/internal/bootstrap/manager.go:61-78 | in every run each dialled connection is exactly one of just built, active, draining or closed, and before Close no published binding uses a closed one |
| RouteRuns.SnapshotsMoveForward | gateway/internal/bootstrap/manager.go:53-62 | with rebuilds racing, the revisions behind published tables and nextWatchRev never go back |
| RouteRuns.NoLostUpdate | gateway/internal/bootstrap/manager.go:95-129 | at every moment of every run a relevant write was read by the latest build; or is a type write that fell in the gap between its reads; or a rebuild under way has still to read; or it is from nextWatchRev on and delivered, awaited or about to be rebuilt for; or a rebuild of the timer's failed when it was no longer pending, and none has read since |
| RouteRuns.QuiescentAgreement | gateway/internal/bootstrap/build.go:23-43 | at quiescence routes are those of the final store, types too if and only if they did not change in the gap, and without a type write there the table is Build of the final store |
| RouteRuns.FailureLoses | gateway/internal/bootstrap/manager.go:87-128 | after a failed rebuild a write is pending if and only if the rebuild was the watch loop's or the write was pending before |
| RouteLimits.FailedReloadIsNotRetried | gateway/internal/bootstrap/manager.go:87-91 | for every relevant change, a run in which the timer's reload for it fails and it is then neither seen nor pending |
| RouteLimits.TypeWriteInGapIsMissed | gateway/internal/bootstrap/build.go:23-43 | a run that comes to rest with everything delivered and a table for a type that is gone from the store |
| CellParser.ScanKeyValue | tools/config-loader/internal/csvparser/types.go:300-311 | the scan with its quote flag splits where `SplitKeyValue` does |
| CellParser.ParseIntArray | tools/config-loader/internal/csvparser/types.go:76-118 | a blank cell is empty, a blank element is 0, and the first bad element is the error |
| CellParser.ParseStringArray | tools/config-loader/internal/csvparser/types.go:120-132 | every piece trimmed and unquoted, in order |
| CellParser.EarlierKey | tools/config-loader/internal/csvparser/types.go:167-182 | the inner loop finds a key exactly when an earlier entry has it |
| CellParser.ParseNumberKeyed | tools/config-loader/internal/csvparser/types.go:148-221 | the store-then-compare loop equals the fold that refuses a key already present |
| CellParser.ParseWordKeyedNumbers | tools/config-loader/internal/csvparser/types.go:222-261 | the string-to-int loop equals its fold, later keys replacing earlier ones |
| CellParser.ParseWordKeyedWords | tools/config-loader/internal/csvparser/types.go:262-294 | the string-to-string loop equals its fold, later keys replacing earlier ones |
| CellParser.ParseMap | tools/config-loader/internal/csvparser/types.go:134-298 | the dispatch on the two sides of a map type |
| CellParser.ParseValue | tools/config-loader/internal/csvparser/types.go:10-40 | the dispatch on the column type, with each branch's errors |
| CellMeaning.FieldExactly | tools/config-loader/internal/csvparser/types.go:313-322 | a field is the trimmed text without one pair of equal outer quotes of either kind |
| CellMeaning.SplitsOutsideQuotes | tools/config-loader/internal/csvparser/types.go:300-308 | an entry splits at its first `=` with an even number of quote characters of either kind before it |
| CellMeaning.IntCellExactly | tools/config-loader/internal/csvparser/types.go:42-66 | an int cell is 0 if blank and else the number its raw text is a numeral of; otherwise the error names the raw text |
| CellMeaning.NumberCellRoundTrip | tools/config-loader/internal/csvparser/types.go:42-66 | every in-range number prints and reads back |
| CellMeaning.PlainCells | tools/config-loader/internal/csvparser/types.go:22-39 | strings and cells of unknown types are kept as they are, and a time is exactly when it is not blank |
| CellMeaning.IntArrayExactly | tools/config-loader/internal/csvparser/types.go:76-118 | an int array has one number for each piece between bars, 0 for a blank piece, and none for a blank cell |
| CellMeaning.FirstBadPieceDecides | tools/config-loader/internal/csvparser/types.go:76-118 | its error names the first piece that is no number |
| CellMeaning.WordArrayExactly | tools/config-loader/internal/csvparser/types.go:120-132 | a string array has the field of each piece between bars, and none for a blank cell |
| CellMeaning.MapSidesExactly | tools/config-loader/internal/csvparser/types.go:140-142 | the sides of a map type are the trimmed texts before its first `=` and up to the second |
| CellMeaning.BlankMapIsEmpty | tools/config-loader/internal/csvparser/types.go:135-138 | a blank map cell is the empty untyped map |
| CellMeaning.EntryMeans | tools/config-loader/internal/csvparser/types.go:146-294 | the key and value of a split entry: two fields, the number the key field is, the number the trimmed value is |
| CellMeaning.WordMapsExact | tools/config-loader/internal/csvparser/types.go:262-298 | string-to-string cells and cells of untyped sides always parse, to what the last entry of each key says |
| CellMeaning.WordKeyedMapsExact | tools/config-loader/internal/csvparser/types.go:222-261 | a string-to-int cell parses if and only if every entry with `=` has an in-range number, and holds the last of each key |
| CellMeaning.FirstBadNumberOfCell | tools/config-loader/internal/csvparser/types.go:222-261 | its error names the key of the first entry whose number is wrong |
| CellMeaning.FirstSpoilerOfCell | tools/config-loader/internal/csvparser/types.go:146-221 | the error of an int-keyed cell is about its first bad or repeated key |
| CellLaws.SplitsAtFirstBareEquals | tools/config-loader/internal/csvparser/types.go:300-311 | an entry splits at the first `=` outside quotes, else at the first `=`, and not at all exactly when it has none |
| CellLaws.NumberKeyedSucceeds | tools/config-loader/internal/csvparser/types.go:146-221 | the duplicate scan succeeds exactly when every entry with `=` has an in-range key and those keys are pairwise distinct |
| CellLaws.NumberKeyedHolds | tools/config-loader/internal/csvparser/types.go:146-221 | the map holds exactly the pairs its entries say |
| CellLaws.IntKeyedMapsExact | tools/config-loader/internal/csvparser/types.go:146-221 | for a non-blank cell of an int-keyed map type: when it parses, and exactly what it then holds |
| CellLaws.FirstSpoilerDecides | tools/config-loader/internal/csvparser/types.go:160-180 | the error is that of the first entry that spoils the map, a bad key before a repeated one |
| CellLaws.LastEntryWins | tools/config-loader/internal/csvparser/types.go:262-277 | a string-to-string map holds a pair if and only if the last entry of that key says so |
| CellLaws.WordKeyedNumbersSucceeds | tools/config-loader/internal/csvparser/types.go:222-261 | a string-to-int map parses if and only if every entry with `=` has an in-range number |
| CellLaws.LastNumberWins | tools/config-loader/internal/csvparser/types.go:222-261 | a string-to-int map holds a pair if and only if the last entry of that key says so |
| CellRoundTrip.NumberArrayRoundTrip | tools/config-loader/internal/csvparser/types.go:76-118 | every array of in-range integers prints and parses back |
| CellRoundTrip.StringArrayRoundTrip | tools/config-loader/internal/csvparser/types.go:120-132 | a quoted string array prints and parses back if and only if no element holds a bar |
| CellRoundTrip.SplitExactly | tools/config-loader/internal/csvparser/types.go:300-311 | a printed `head=tail` splits where it was joined if and only if it is separable |
| CellRoundTrip.QuotelessKeySeparates | tools/config-loader/internal/csvparser/types.go:302-308 | a key without quote characters separates from any value |
| CellRoundTrip.QuotedKeyCanBreak | tools/config-loader/internal/csvparser/types.go:302-308 | the key `'=` separates from no value |
| MapRoundTrip.WordEntryExactly | tools/config-loader/internal/csvparser/types.go:269-275 | a printed pair reads back as itself if and only if it is separable |
| MapRoundTrip.ReadBackSeparates | tools/config-loader/internal/csvparser/types.go:262-277 | a printed map that reads back as itself has only separable pairs: entries cannot trade places |
| MapRoundTrip.WordMapRoundTrip | tools/config-loader/internal/csvparser/types.go:262-277 | a string-to-string map, listed in any order, prints and parses back if and only if no string holds a bar and every pair is separable; the empty map comes back as the empty untyped map |
| MapRoundTrip.QuotelessKeysRoundTrip | tools/config-loader/internal/csvparser/types.go:262-277 | with keys free of quote characters it does if and only if no string holds a bar |
| MapRoundTrip.NumberKeyedMapRoundTrip | tools/config-loader/internal/csvparser/types.go:146-221 | an int-keyed map prints and parses back if and only if no value holds a bar |
| MapRoundTrip.NumberValuedMapRoundTrip | tools/config-loader/internal/csvparser/types.go:222-261 | a string-to-int map prints and parses back if and only if no key holds a bar and every pair is separable |
| MapRoundTrip.QuotelessNumberValuedRoundTrip | tools/config-loader/internal/csvparser/types.go:222-261 | with keys free of quote characters it does if and only if no key holds a bar |
| MapRoundTrip.EveryWordMap | tools/config-loader/internal/csvparser/types.go:262-277 | every string-to-string map reads back, printed in some order or in every order, if and only if no string holds a bar and every pair is separable |
| MapRoundTrip.EveryNumberKeyedMap | tools/config-loader/internal/csvparser/types.go:146-221 | every map of in-range int keys does if and only if no value holds a bar |
| MapRoundTrip.EveryNumberValuedMap | tools/config-loader/internal/csvparser/types.go:222-261 | every map of strings to in-range ints does if and only if no key holds a bar and every pair is separable |
| Sheets.Parse | tools/config-loader/internal/csvparser/parser.go:16-65 | fewer than three records are an error; otherwise the sheet holds every data cell parsed with its column's type, or the error is that of the first cell, row by row, that does not parse |
| Sheets.Validate | tools/config-loader/internal/validator/validator.go:18-34 | accepts exactly snake_case names that are all different, and reports the first column that breaks this |
| Sheets.SnakeCaseMeans | tools/config-loader/internal/validator/validator.go:10-12 | a name is a lower-case letter followed by lower-case letters, digits and underscores |
| Sheets.Generate | tools/config-loader/internal/jsongen/generator.go:19-37 | each row becomes the map from column name to cell, cells past the headers dropped |
| Sheets.LastCellStays | tools/config-loader/internal/jsongen/generator.go:22-31 | of cells under one name the last one stays |
| Sheets.EachCellUnderItsName | tools/config-loader/internal/jsongen/generator.go:22-31 | in a validated sheet a generated row has exactly the columns' names, and under each the cell parsed from that column |
| TypeAgreement.EncodedEncodes | tools/config-loader/internal/jsongen/generator.go:22-31 | the JSON of a cell carries its content, int keys in decimal |
| TypeAgreement.DecodesToOne | tools/config-loader/internal/gogen/generator.go:139-179 | decoding into a Go type has at most one outcome |
| TypeAgreement.EncodingDecodes | tools/config-loader/internal/gogen/generator.go:139-179 | a value decodes back from its JSON if and only if it fits the Go type |
| TypeAgreement.TypesAgree | tools/config-loader/internal/gogen/generator.go:139-179 | for every type string but `time`, every cell of the column decodes with its content if and only if the type is not a map with an int side whose other side is not `string` |
| TypeAgreement.GeneratedRowsDecode | tools/config-loader/internal/jsongen/generator.go:19-37 | each cell of a validated sheet appears under its own column name and decodes into that column's Go field |
| TypeMeaning.GoTypeIs | tools/config-loader/internal/gogen/generator.go:139-179 | each column type has its own Go type; unknown names are strings |
| TypeMeaning.ListsWritten | tools/config-loader/internal/jsongen/generator.go:22-31 | single values and arrays are written element by element |
| TypeMeaning.WordTablesWritten | tools/config-loader/internal/jsongen/generator.go:22-31 | string-keyed maps are written member by member |
| TypeMeaning.NumberTablesWritten | tools/config-loader/internal/jsongen/generator.go:22-31 | an int-keyed map has one member for each entry, under its key in decimal |
| Routing.ResolvePoolName | pkg/dsroute/lpm.go:21-50 | the scan, with its special case for the empty prefix, answers what trying the key's prefixes longest first answers |
| Routing.ResolveIsWinner | pkg/dsroute/lpm.go:25-44 | the answer is the longest matching rule, the first listed of equal ones, and there is none exactly when nothing matches |
| Routing.ValidateRoutes | pkg/dsroute/lpm.go:52-64 | accepts exactly tables without a repeated prefix; the error names the first repetition, where the prefix stood before, and both pools |
| Routing.OrderFreeIff | pkg/dsroute/lpm.go:25-44 | every permutation of a table answers alike if and only if rules of equal prefix are equal |
| Routing.ValidatedIsOrderFree | pkg/dsroute/lpm.go:21-64 | a validated table may be listed in any order |
| Routing.InsertionIsLocal | pkg/dsroute/lpm.go:21-64 | inserting a rule changes the answer exactly for keys that extend its prefix and match no longer rule, and to that rule |
| Routing.ResolvesInsideIff | pkg/dsroute/router.go:59-85 | for any table, stored by UpdateRoutes or not, every answer names an existing pool if and only if each first rule of a prefix does |
| Routing.CheckPools | pkg/dsroute/router.go:26-36 | no error exactly when every rule's pool exists; else the first rule without one |
| Routing.NewRouter | pkg/dsroute/router.go:20-56 | a router is made exactly when pools and prefixes of both tables pass, checked in the source's order, and holds what it was given |
| Routing.Router.UpdateRoutes | pkg/dsroute/router.go:59-65 | both tables are replaced unchecked |
| Routing.Router.ResolveDB | pkg/dsroute/router.go:67-75 | the answer's pool and its handle, none for an unknown pool; never none while the stored tables pass the constructor's checks |
| Routing.Router.ResolveRedis | pkg/dsroute/router.go:77-85 | the same for caches |
| LobbyConfig.TypedStore.Get | services/lobby/internal/config/store.go:27-31 | the current snapshot |
| LobbyConfig.TypedStore.Update | services/lobby/internal/config/store.go:34-42 | the snapshot is replaced as a whole |
| LobbyConfig.ConfigLoader.LoadOne | services/lobby/internal/config/loader.go:26-57 | no error if and only if the database resolved, the name is registered, a row came back and its payload decodes; else the first thing missing is the error and every snapshot stays; success replaces exactly the named one by that row |
| LobbyConfig.LoadsExactly | services/lobby/internal/config/loader.go:26-57 | the same of the functions the runs are made of |
| LobbyConfig.FinishedLoadStores | services/lobby/internal/config/loader.go:46-56 | in every run a load that ends with a decodable row of a registered config leaves exactly that row stored, and any other leaves everything as it was |
| LobbyConfig.ConfigLoader.LoadAll | services/lobby/internal/config/loader.go:116-125 | loads one by one, going on past failures |
| LobbyConfig.EachLoadedOnItsOwn | services/lobby/internal/config/loader.go:116-125 | loading different configs in a row leaves each as its own load alone would |
| LobbyConfig.ConfigLoader.HandleMessage | services/lobby/internal/config/watcher.go:76-101 | a message that does not decode or names no config is ignored; any other is one load of that config |
| LobbyConfig.StepKeepsInv | services/lobby/internal/config/loader.go:34-56 | a load under way has read a row at least as new as the stored snapshot and as the announcement that caused it |
| LobbyConfig.AnnouncementsMove | services/lobby/internal/config/watcher.go:34-101 | announcements are queued in order for a subscriber, taken from the front, and lost only by being lost |
| LobbyConfig.LoadsMove | services/lobby/internal/config/loader.go:26-57 | what begins and ends a load, and what changes the table it reads |
| LobbyConfig.RevisionsNeverDecrease | services/lobby/internal/config/store.go:34-42 | in every run whose changes of database keep the rows the stored revision of a config never goes down |
| LobbyConfig.ReloadLowersExactly | services/lobby/internal/config/loader.go:26-57 | a load that succeeds lowers the stored revision if and only if the table it reads holds no revision of the config as high |
| LobbyConfig.RedirectLowersTheRevision | services/lobby/cmd/lobby/main.go:151-158 | a run in which an update of the routes points loads at another database and the stored revision drops |
| LobbyConfig.HandledMeansAtLeast | tools/config-loader/cmd/config-loader/main.go:124-139 | in such a run, once an announcement of revision r was handled without error the stored revision is, and stays, at least r |
| LobbyConfig.HandledLatestIsHeld | services/lobby/internal/config/loader.go:34-56 | if r is still the latest row, the snapshot is exactly its decoded payload |
| LobbyConfig.CurrentIff | services/lobby/internal/config/loader.go:26-57 | in every such run the lobby holds the latest revision of a config if and only if some load that read it has succeeded |
| LobbyConfig.OnlyGoodLoadsChange | services/lobby/internal/config/loader.go:26-57 | a snapshot changes only at the end of a load of that config that succeeds |
| LobbyConfig.WriteBeforeSubscribingIsMissed | services/lobby/cmd/lobby/main.go:164-172 | a run in which a revision announced between the startup load and the subscription never arrives |
| Text.SplitJoined | tools/config-loader/internal/csvparser/types.go:125 | splitting joined pieces gives them back if and only if none holds the separator |
| Text.ParsePrinted | tools/config-loader/internal/csvparser/types.go:87 | an in-range integer printed in decimal parses back |
| TextLaws.ParseIntExactly | tools/config-loader/internal/csvparser/types.go:87 | a text parses if and only if it is an optional sign and digits whose positional value is in range, and to that value |
| TextLaws.PrintsItsNumeral | tools/config-loader/internal/csvparser/types.go:87 | a number is printed as such a numeral, without plus sign or leading zeros |
| TextLaws.TrimSpaceExactly | tools/config-loader/internal/csvparser/types.go:14 | trimming leaves exactly the text between the spaces of unicode.IsSpace around it |
| TextLaws.BlankIsSpaces | tools/config-loader/internal/csvparser/types.go:14 | a text is blank if and only if it holds nothing but such spaces |

## Left out

- OneDevice.OneOpenConnectionPerUser: proved for orderly runs only; `DisplacementLimits` shows that the code alone does not ensure it.
- Connections.ConnectionManager.CheckAllConnections: what other goroutines record about a client during a sweep is taken to come before or after the sweep's look at that client, so a ping between the heartbeat check and the idle check of one client is not modelled.
- Connections.ConnectionManager.DisconnectByUserID: the message to the old socket, the short wait and the close, which happen outside the lock.
- RouteManager.Manager.Bootstrap: one call with the build lock held; its separate effects and their interleavings are the steps of RouteManager.Next.
- TypeAgreement.GeneratedRowsDecode: time columns, whose decoding depends on a time layout.
- Sheets.Parse: starts from records of equal length, as the CSV reader delivers them; its quoting (RFC 4180), the config name and the file name are not part of this model.
- Handler.ServeWS: the deferred clean-up, read deadlines, reply encoding, and the search for a user id in a reply, which is an input here.
- LobbyConfig.ConfigLoader.LoadOne: decoding by reflection is a function that may fail, and the query's answer is an input constrained to be the latest row.
- Text that is not valid UTF-8.
- Overflow of the int64 counters and revisions.
- `issueSession`, which neither Login nor Register calls and which stores a session key without its user key.
- bcrypt, token generation, SQL text, user rows, Redis and MySQL clients, gRPC, etcd and WebSocket libraries; dialling is an input.
- Cancellation of contexts, shutdown, timing of debounce, back-off and drain delays: any order of steps is allowed.
- The command line of the config tool, Go source emission and `toCamelCase`, the stage runner, `pkg/conf`, logging and tracing.

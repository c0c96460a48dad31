# Social-graph relationship engine — a Dafny model

This project models the relationship-mutation core of the game server's friend
pipeline (`server/pipeline_friend.go`): the request checks of add, remove and
block; the remove and block transactions; the friend list; and the import merge.
The import merge turns a user's external (Facebook) contacts who are already
registered into mirrored friend connections and notifies them. It also models
the positional-parameter text that the import builds for its batch statements.

The SQL store is modelled as three finite maps (`SocialGraph.Store`):

- `edges`: the `user_edge` rows, keyed by (source, destination). Each row holds
  its position, its update time and its state code: 0 is connected, 3 is blocked.
- `meta`: the `user_edge_metadata` rows, keyed by user. Each holds a count and an
  update time. A counter `UPDATE` leaves a user without a row untouched.
- `users`: the profile columns read by the friend list and by the import lookup.

Each statement is a pure function on the store. A transaction runs its statements
in source order. Storage failures are an input: a set `faults` of the statements
that would fail if issued (`Transaction.Stmt`). The first failing statement
aborts the transaction with `Err`. The caller then keeps the store it started
from, which is what the deferred rollback handlers do.

Modules:

- `Outcomes`: `Option` and `Result`.
- `SocialGraph`: the store and its atomic statements. This covers delete,
  delete-unless-blocked, block, counter adjust/set/bump, and the multi-row
  mirrored insert. It also defines the counter invariant and out-degree accounting.
- `Transaction`: the statements, the fault input and the rollback reasons.
- `Validation`: the request checks and their bad-input messages.
- `Relationship`: the remove and block transactions.
- `Pipeline`: the remove, block and list handlers and the reply each one sends.
- `Placeholders`: the `$n` lists of the lookup, the edge insert and the counter
  bump, and what they denote once their parameters are filled in.
- `Import`: the merge transaction (as written and corrected), the notifications,
  the lookup and the whole import.

Four behaviours of the code are worth stating plainly, since the model follows
them exactly:

- **Counter meaning.** Block overwrites the caller's own row with state 3
  without decrementing, and remove decrements for a deleted row of any state.
  So the invariant the code keeps (`SocialGraph.CountsConsistent`) is "count =
  number of outgoing rows of any state", not a count of connected rows only.
  Remove, block and the corrected import are proved to preserve it.
- **Block without a row.** Block never creates a missing row: without a row
  from the caller to the target it fails with "User ID may not exist" and
  rolls back.
- **List order.** The list query has no `ORDER BY`, so the model promises no
  order.
- **Import counter.** The import *sets* the caller's counter to the number of
  matches, where the comment above the statement says it is raised by that
  number (see Findings).

## Model

| member | source | states |
|---|---|---|
| `Validation.CheckTargetId` | server/pipeline_friend.go:301-318 | an id is accepted iff it has 16 bytes and is not the caller's; otherwise the rejection is "missing" for 0 bytes, "invalid" for another length, "self" for the caller's own id |
| `Validation.CheckUserIds` | server/pipeline_friend.go:350-376 | a remove/block request is accepted iff the list is non-empty and its first id is a 16-byte id other than the caller's; the accepted target is that first id; an empty list is its own rejection |
| `Validation.CheckAdd` | server/pipeline_friend.go:282-299 | an add request is decided by its first entry: an empty list is rejected; an id entry gets the id checks and, when they fail, exactly their rejection (missing, invalid or self); a handle entry is rejected iff it is empty or the caller's own handle; an entry with neither is not answered |
| `Validation.AddFirstEntryOnly` | server/pipeline_friend.go:285-292 | entries after the first never change the outcome of an add request |
| `Validation.FirstIdOnly` | server/pipeline_friend.go:350-357 | ids after the first never change the outcome of a remove or block request |
| `SocialGraph.DeleteEdge` | server/pipeline_friend.go:407-408 | the directed row is gone afterwards; 1 row affected iff it existed, 0 otherwise; every other row, the users and the counters are unchanged |
| `SocialGraph.DeleteUnlessBlocked` | server/pipeline_friend.go:499-500 | removes the row iff it exists and its state is not 3; reports 1 row affected exactly then and never more; a blocked row survives; nothing else changes |
| `SocialGraph.BlockEdge` | server/pipeline_friend.go:486-487 | 1 row affected iff the directed row exists, and then it has state 3 and the new update time with its position kept; no row is created or removed; nothing else changes |
| `SocialGraph.AdjustCount` | server/pipeline_friend.go:410 | the user's counter moves by `delta` and is stamped when its metadata row exists; a user without one is left as is; no other counter, row or user changes |
| `SocialGraph.SetCount` | server/pipeline_friend.go:218 | the user's counter becomes `n` whatever it was, stamped `ts`, when its metadata row exists; nothing else changes |
| `SocialGraph.BumpCounts` | server/pipeline_friend.go:175 | every existing counter named in the list is raised by exactly one and stamped, however often it is named; every other counter, row and user is unchanged |
| `Relationship.RemoveTx` | server/pipeline_friend.go:405-421 | with no storage failure remove succeeds; afterwards neither direction exists; every other row is unchanged; each side's counter drops by 1 (stamped `now`) iff its own directed row existed; all other counters are unchanged; failures come only from the fault input; it commits iff begin, both deletes and the commit succeed and each counter decrement succeeds whenever its row existed (a decrement that is not issued cannot fail it) |
| `Relationship.BlockTx` | server/pipeline_friend.go:486-508 | with no failure, block succeeds iff caller→target exists, and with no such row it fails with NotFound; on success caller→target has state 3 with its position kept; target→caller survives iff it was itself a block; the target's counter drops by 1 iff that row was deleted; the caller's counter and all other rows are unchanged; if the reverse row was not deleted, no counter changes; it commits iff begin, the block update and the reverse delete succeed, caller→target exists, the target's decrement succeeds whenever the reverse row was deleted, and the commit succeeds |
| `Relationship.RemovePreservesCounts` | server/pipeline_friend.go:407-421 | a successful remove keeps every counter equal to its user's out-degree |
| `Relationship.BlockPreservesCounts` | server/pipeline_friend.go:486-508 | a successful block keeps every counter equal to its user's out-degree |
| `Pipeline.FriendRemove` | server/pipeline_friend.go:347-422 | the reply is bad-input iff the request check fails, with that check's message; any reply but an acknowledgement leaves the store unchanged; a valid request is acknowledged iff the remove transaction commits; an acknowledged store is exactly the committed remove transaction's (`Relationship.RemoveTx`), so no row joins caller and target either way and only their two counters change |
| `Pipeline.FriendBlock` | server/pipeline_friend.go:424-509 | bad-input iff the request check fails; "Failed to block friend" iff the transaction cannot open; any other failure is "Could not block user" with the store unchanged; a valid request is acknowledged iff the block transaction commits, so with no failure iff caller→target existed; an acknowledged store is exactly the committed block transaction's (`Relationship.BlockTx`), so that row is blocked and only the reverse row and the target's counter may change |
| `Pipeline.RejectedRequestsChangeNothing` | server/pipeline_friend.go:372-376 | a rejected remove or block, including a self-target, answers bad input and leaves the store as it was |
| `Pipeline.HandlersPreserveCounts` | server/pipeline_friend.go:347-509 | whatever the request and the failures, remove and block leave every counter equal to its user's number of outgoing rows when it was so before |
| `Pipeline.OnlyFirstTargetProcessed` | server/pipeline_friend.go:427-434 | a remove or block request with several ids gives the same store and reply as one with only its first id |
| `Pipeline.FriendsList` | server/pipeline_friend.go:511-520 | without a query failure the reply lists each destination of the caller's rows that has a user row exactly once, with its profile columns (never the external id, which the query does not select) and the row's state, and nothing else; order is unspecified; a failure gives "Could not get friends" |
| `Placeholders.DecimalRoundTrip` | server/pipeline_friend.go:163 | reading the decimal digits of a parameter number back yields that number |
| `Placeholders.PlaceholderInjective` | server/pipeline_friend.go:188 | two parameter references are the same text iff they name the same parameter |
| `Placeholders.BuildLookup` | server/pipeline_friend.go:157-166 | the lookup's `IN` list is `$1, ..., $n`, comma-space separated, and `$i` resolves to the i-th external id in input order |
| `Placeholders.LookupListOfThree` | server/pipeline_friend.go:157-166 | for three contacts the list is exactly `$1, $2, $3` |
| `Placeholders.EdgeTemplatesDenoteMirroredRows` | server/pipeline_friend.go:184-188 | row 2k of the VALUES list, filled in from the insert's parameters, is caller→match k and row 2k+1 is match k→caller, both connected with position = update time = ts |
| `Placeholders.BuildMerge` | server/pipeline_friend.go:173-200 | the insert text is the head followed by the two-rows-per-match template in which match k (counting from 0) is `$(k+3)`; the bump list is `$2 ... $(m+1)`; its parameters are ts then the matches in scan order; the VALUES list denotes the mirrored rows and the bump list names exactly the matches |
| `Placeholders.BumpSlotsDenoteMatches` | server/pipeline_friend.go:190-194 | the bump's `$1` is the timestamp and its k-th list entry is the k-th match |
| `SocialGraph.InsertRows` | server/pipeline_friend.go:207-211 | a conflict-free multi-row insert adds every row with its values, keeps every existing row, and creates no other key |
| `SocialGraph.MirroredRowAt` | server/pipeline_friend.go:184-188 | match i contributes row 2i (caller→match) and row 2i+1 (match→caller), connected, stamped ts |
| `SocialGraph.MirroredInsertConflictFree` | server/pipeline_friend.go:207-211 | the mirrored insert violates the (source, destination) key iff some match is the caller, a match repeats, or a row already joins a match and the caller |
| `SocialGraph.InsertRowsDegree` | server/pipeline_friend.go:207-211 | a conflict-free insert raises each user's out-degree by the number of inserted rows it is the source of |
| `SocialGraph.MirroredSourceCount` | server/pipeline_friend.go:184-188 | among mirrored rows for new peers, the caller is the source of one row per match and each match of exactly one |
| `Import.InsertAndBump` | server/pipeline_friend.go:207-216 | insert and bump succeed iff neither fails and the matches are fresh peers; then the rows are the mirrored insert and each matched counter is +1 (stamped ts); other counters are unchanged |
| `Import.ImportTxAsWritten` | server/pipeline_friend.go:152-221 | the merge as written: no change with zero matches; on success with matches the mirrored rows (ts, ts, connected) are added for every match and no other row is, existing rows are kept, every match's counter is raised by one, the caller's counter is set to the number of matches and every other counter is unchanged; a failure names a failed statement or the insert conflict; with no failure it succeeds iff there are no matches or they are fresh peers; with matches it commits iff none of its statements fails and the matches are fresh peers |
| `Import.ImportTx` | server/pipeline_friend.go:152-221 | the corrected merge: both connected rows with position = update time = ts exist for every match; existing rows are unchanged and no other row appears; each matched counter is +1; the caller's counter is raised by the number of matches; other counters are unchanged; zero matches change nothing; with matches it commits iff none of its statements fails and the matches are fresh peers |
| `Import.ImportPreservesCounts` | server/pipeline_friend.go:212-218 | a successful corrected merge keeps every counter equal to its user's out-degree |
| `Import.AsWrittenCountDrifts` | server/pipeline_friend.go:217-218 | from a consistent store, a caller that already has a row and imports at least one fresh match with no failing statement sees the merge commit and ends with a counter below its out-degree, breaking the invariant |
| `Import.AsWrittenCounterexample` | server/pipeline_friend.go:217-218 | a caller with one friend who imports one match ends with counter 1 and 2 outgoing rows under the code as written, and counter 2 under the corrected merge |
| `Import.FriendJoinNotifications` | server/pipeline_friend.go:115-131 | one record per match, in order: the i-th goes to the i-th match, from the caller, with the fixed subject, code and content, created at ts, expiring expiryMs later, persistent; the recipients are exactly the matches |
| `Import.AddFacebookFriends` | server/pipeline_friend.go:85-225 | a failed or empty contact fetch, zero matches or a rolled-back merge change nothing and notify nobody; otherwise one notification per match in scan order, each to that match, from the caller, with the fixed subject and code, created at ts, expiring at ts + expiryMs, persistent; every notified user and the caller are connected both ways in the resulting store; with a non-empty fetch and matches, users are notified exactly when the merge commits, and the store is then the merge's result |
| `Import.LookupMatches` | server/pipeline_friend.go:157-182 | the lookup returns each registered user whose external id is among the contacts, once, and no one else |
| `Import.ImportFriends` | server/pipeline_friend.go:144-225 | the matches it returns are exactly the registered users among the contacts, each once, and its report is `Import.AddFacebookFriends` of them; only registered contacts are notified, each once, and when any are notified all of them are; with no failure they are notified iff there is one and none is the caller or already has a row with the caller |

## Left out

- The bodies of `friendAdd` and `friendAddHandle` are not part of this model. They are defined outside `server/pipeline_friend.go`. Only the request checks before them are modelled (`Validation.CheckAdd`).
- Row scanning in `querySocialGraph` and `getFriends` is not modelled, including the conversion of NULL columns to empty strings and zero. A user row is a plain record.
- The external social client is an input: the `fetched` result of `Import.AddFacebookFriends`.
- Import.AddFacebookFriends: runs the corrected merge `Import.ImportTx`, so after a commit the caller's counter is raised by the number of matches, not set to it as line 218 does; the as-written merge is `Import.ImportTxAsWritten` (see Findings).
- Import.ImportFriends: runs `Import.AddFacebookFriends`, and so the corrected merge as well, for the same reason.
- Notification dispatch (`NotificationSend`) is not modelled. The model returns the batch handed to the dispatcher. A dispatch failure is only logged and never touches the store.
- The notification content is an opaque payload parameter. It is the JSON of the caller's handle and external id, and marshalling two strings cannot fail. The random notification id (`uuid.NewV4`) is not modelled.
- The `NOTIFICATION_FRIEND_JOIN_GAME` constant is defined outside this file. It is the named code `FriendJoinGame`.
- The clock is a parameter: `now` for remove, `t1` and `t2` for the two clock reads of block, `ts` for the import.
- Storage failures are the `faults` input, not driver behaviour. A failed commit is a failure that changes nothing.
- After a failed delete, remove calls `RowsAffected` on the nil result that `tx.Exec` returns with the error (lines 408 and 418) before it checks the error, so the call panics. The deferred handler of lines 384-403 still runs: it rolls back and sends "Failed to remove friend". It does not recover, so the panic then propagates out of `friendRemove`. `Relationship.RemoveTx` and `Pipeline.FriendRemove` model only the rollback and the reply; the propagating panic is not modelled. Block checks the error before reading rows affected (lines 489-497).
- The duplicate-row risk on re-import assumes a key on (source, destination). An insert that repeats a key, or collides with an existing row, is a failure of the insert statement (`SocialGraph.InsertConflict`).
- Logging, the `pq.Error` log-level distinction, session/envelope framing, collation ids, concurrency and transaction isolation are not modelled. The friend-list read is not transactional in the source. Here it is a snapshot of one store.
- Counters and timestamps are unbounded integers. Column widths are not modelled because no operation comes near them.

## Findings

| source | as written | input that shows it | evidently intended | confidence | as-written member | corrected member |
|---|---|---|---|---|---|---|
| server/pipeline_friend.go:217-218 | the caller's counter is set to the number of new matches (`count = $1`) | a caller with one existing friend (count 1, one outgoing row) imports one new match: count becomes 1 while the caller has 2 outgoing rows | raise the counter by the number of new matches (`count = count + m`), as the comment on line 217 describes | medium, not executed | `Import.ImportTxAsWritten` (`Import.AsWrittenCountDrifts`, `Import.AsWrittenCounterexample`) | `Import.ImportTx` (`Import.ImportPreservesCounts`) |

The import flow (`Import.AddFacebookFriends`, `Import.ImportFriends`) uses the
corrected merge.

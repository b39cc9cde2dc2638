# Chat history, accounts, uploads and migrations, verified

A model, in Dafny, of the parts of the application that keep state consistent: the chat history store, the account and
session manager with its file, the streaming body limiter, two database transformations, and a few string and list
transformations with laws. Every module states what the code promises as properties over all inputs or all runs, and
the code that works in place is a class or a method proved against the functions those properties are about. What an
operation promises its caller is stated besides in the caller's terms: what a later read, load or check then sees.
`dafny verify dfyconfig.toml` checks everything.

## Modules

| file | subject |
|---|---|
| `HistoryProtocol.dfy`, `HistorySwaps.dfy`, `HistoryAgreement.dfy` | concurrent appends and whole-history replacements of one cached chat session: the protocol and what every step keeps; what a compare-and-swap answers; when memory, rows and message_count agree |
| `ChatContent.dfy` | message content and metadata as stored and read back, and the snapshots a compare-and-swap compares |
| `ChatStore.dfy`, `SessionManager.dfy` | the session manager between cache and database: state functions and their properties; the same operations in place |
| `SessionFile.dfy` | threads that change the browser sessions and save them through the atomic file writer, with crashes |
| `Accounts.dfy`, `AuthManager.dfy` | account and session operations: state functions and properties of runs; the same operations in place |
| `Privileges.dfy`, `PrivilegeReads.dfy` | privilege maps, and the lock-free reader against promotions and demotions |
| `ContentLength.dfy`, `UploadLimit.dfy` | the declared length, and the body limiter around an arbitrary application |
| `IdentityMigration.dfy` | the transactional upgrade of `auth_identities` |
| `SearchIndex.dfy` | the trigger-maintained full-text index over chat messages and its migration |
| `EmailDraft.dfy` | the email draft document and the reply merge |
| `Scopes.dfy` | normalization of API token scopes |
| `LawfulCodec.dfy` | a toy encoding that meets the laws asked of the JSON library |
| `Text.dfy`, `Sequences.dfy`, `Options.dfy` | string functions as in Python, sequences, result types |

## Where the code keeps its promise only under a condition

Each of these is a lemma that gives the exact condition or a concrete counterexample.

- Appends against replacements. The stored half of "nothing is lost" holds in every interleaving (`NothingLost`,
  `RowsAreReplay`). Once no call is in flight, memory and rows hold the same messages exactly when the last action to
  set the history set it well (`AgreementIff`), and the stored message_count, which always follows memory then, is the
  number of rows exactly when that action gave the history the right length (`CountIff`). Two actions set it.
  - `SessionManager.add_message` reads `session.history` and assigns it to `_history` without the lock, so it can undo a
    replacement installed between the two. It sets the history well when the list it writes back agrees with the rows
    then. Writing back the history itself never spoils agreement (`HistoryWriteBackIsHarmless`), and it is the history
    itself exactly when nothing moved the history since it was read, or the last to move it was another write-back of
    the same list (`WriteBackKeepsHistoryIff`). `StaleWriteBackDisagrees` is a run that ends with memory [0, 1], rows
    [2, 3, 1] and message_count 2; `WriteBackAgreesIff` is the condition for one call alone. `Session.add_message` does
    no such write.
  - A replacement sets it well exactly when no message it names is in flight, those aside whose add has not fetched the
    history when it is installed. One without an expected snapshot, as the manual compaction route makes, doubles the row
    of a message about to be persisted exactly when it names it (`ReplacementAgreesIff`). One with a snapshot that holds
    an entry without an id, as the compactor's guard ensures for such a message, always installs well, however late it
    starts (`GuardedSwapInstallsCleanly`).
- The session file: a failed write is logged and swallowed, so a revocation can look finished while the file still
  holds the token (`FailedSaveLosesRevocation`). The token is still there exactly when it was and no thread has replaced
  the file since (`RevokedInFileIff`), and the first crash after the revocation brings it back exactly when it has not
  expired and it is still in the file then, or in the older file that a power loss uncovers (`RevokedReturnsIff`,
  `UnsyncedRevocationReturns`). Disk
  equals memory exactly when the file has been replaced since memory was last set, by whomever, or memory was set to
  what the file held (`DiskEqualsMemoryIff`).
- A pasted string that reads as a list of typed blocks comes back as blocks, and one whose "type" is a list or an
  object makes loading raise (`RoundTripsIff`, `UnhashableTypeRaises`). Cached histories equal their rows exactly as long
  as contents survive storage and no message object is in a history twice (`AddKeepsIff`, `ReplaceKeepsIff`).
- A replaced message without a timestamp gets one only when it is loaded again (`ReplacementHydratesIff`); everything
  else about it is the same.
- `auth_identities`: the check for new foreign-key violations compares rowids, and the rebuild renumbers the rows. With
  a violation that was there before, the upgrade refuses exactly when a rowid is unused before it or the key had another
  number (`RebuildCheckIff`, `UnusedRowidRefuses`). The rebuild keeps an index that somebody created exactly when it is
  unique over neither key, and one that SQLite made for a constraint exactly when the new table has the same
  (`UpgradeKeepsIndexIff`), so it drops a partial unique index over the three new key columns
  (`PartialIndexIsDropped`). When foreign-key enforcement cannot be switched back on, the exception comes after the
  commit (`Connection.Migrate`).
- The full-text migration does not touch entries that are already there, so over an existing table it mirrors the
  messages exactly when those entries were sound (`Database.Migrate`).
- Merging replies is last-writer-wins exactly when the first reply holds no quote marker (`LastWriterWinsIff`). A built
  draft is recovered in full exactly when no header value holds a line break (`RecoversIff`), and its body alone exactly
  when the header block holds no separator (`BodyRecoveredIff`); a line break in a recipient can put one there
  (`LineBreakMovesSeparator`).
- Deletion and rename release the config lock before they touch the sessions. Whatever other operations come between the
  halves of a rename, it leaves a session of an inactive account exactly when the new name has been taken away again and
  there are sessions to hand over (`RenameGapIff`); nothing can come of the gap in a deletion (`DeleteGapKeepsSessions`).
  The routes reserve the names concerned for the whole of a rename or deletion (routes/auth_routes.py:238-318), which
  excludes it (`ReservedRenameKeepsSessions`), so only a direct caller of the manager can meet it. Such a session
  authenticates again exactly when a rollback restores its name (`OrphanAuthenticatesIff`).
- The documentation of `_declared_content_length` says it returns the largest valid value; the code returns a value only
  when all of them are equal, and that is what is modelled. A comment in `delete_user` says that `validate_token` does
  not consult the users; it does (core/auth.py:1031-1058).

## Assumptions

- Database commits succeed unless a property speaks of their failure.
- An append reads a clock value greater than every stored timestamp of the session; row ids and tokens are new.
- Every call of `add_message` in the concurrent model brings a new message object, and the session is hydrated.
- Callers reach a session's history through `get_session`, so that it is hydrated. The branch that stores 0 in
  `message_count` for an uncached session (core/session_manager.py:344-347) is outside.
- The JSON library is a parameter with laws: what is dumped loads as it was, and a dumped list of typed objects starts
  with `[{` and contains `"type"`. `LawfulCodec.LawfulCodecExists` shows that these laws can be met.
- SQLite enforces the unique indexes it has, and numbers the rows copied into an empty table from 1.

## Model

| member | source | states |
|---|---|---|
| HistoryProtocol.StepKeepsBooks | core/session_manager.py:301-366 | every step of every thread keeps the books of the commits: the rows are their replay, and exactly the adds not in flight have committed |
| HistoryProtocol.RowsAreReplay | core/session_manager.py:277-366 | at every point of every interleaving the rows are a sequential replay of the commits, no add has committed twice, and exactly the finished adds have committed |
| HistoryProtocol.NothingLost | core/session_manager.py:304-312 | at every point of every interleaving a finished add's message is in the rows, or a replacement that committed later left it out |
| HistoryProtocol.ReplayKeeps | core/session_manager.py:426-550 | in a sequential replay, a message stays as long as every later replacement names it |
| HistorySwaps.GuardedSwapInstallsCleanly | src/context_compactor.py:723-786 | a compare-and-swap whose snapshot has an entry without an id, or that names no message in flight, installs no list that names one, in every run and however late it starts |
| HistorySwaps.SwapReturnsIff | core/session_manager.py:434-534 | in every run a compare-and-swap commits only after its checks of memory, of the rows and of memory again have each seen the expected snapshot, and returns True exactly when none of them saw another |
| HistorySwaps.UndisturbedSwapSucceeds | core/session_manager.py:434-546 | where the snapshots of memory and rows agree, a swap that expects them and is not disturbed leaves the given messages as history and rows |
| HistorySwaps.RowsCarryTheirIds | core/session_manager.py:351-354 | in every run row ids are distinct, a message carries the id of the last row written from it, and one without a row carries none |
| HistorySwaps.MemoryShowsRowIds | core/session_manager.py:81-117 | where memory lists the messages of the rows, each once, their snapshots agree |
| HistorySwaps.ManagersWriteBack | core/session_manager.py:289-294 | SessionManager.add_message has written a list back before it takes the lock |
| HistorySwaps.OnlyManagersWriteBack | core/models.py:95-108 | Session.add_message never writes a list back |
| HistoryProtocol.StepKeepsSound | core/session_manager.py:301-366 | every step of every thread keeps the books of the commits, the lock discipline, and that the rows are what a replacement has committed until it installs it |
| HistoryAgreement.StepMoves | core/session_manager.py:289-366 | the effect of every step on memory, on rows and on what the adds in flight still have to do to the history |
| HistoryAgreement.StepAgreesIff | core/session_manager.py:289-366 | whether memory agrees with the rows after a step, in contents or in number, is decided: by the list written back, by what an installed replacement names, and otherwise by whether it agreed before |
| HistoryAgreement.AgreementIff | core/session_manager.py:277-550 | in every run, once no call is in flight, memory and rows hold the same multiset exactly when the last write-back or replacement set the history well: a list that agreed with the rows, or one naming no message in flight whose add has fetched the history |
| HistoryAgreement.CountIff | core/session_manager.py:344-345 | in every run, once no call is in flight, the stored message_count is the length of the history, and the number of rows exactly when the last write-back or replacement gave the history the right length |
| HistoryAgreement.StepKeepsInv | core/session_manager.py:301-366 | every clean step (fetch, append, write-back of a list that agrees with the rows, repair by identity, count, commit, the three checks of a compare-and-swap, install of a list naming no late message) keeps books, counts and agreement |
| HistoryAgreement.CleanRunKeepsInv | core/session_manager.py:277-366 | books, counts and agreement hold at every point of every clean interleaving of any number of appends and replacements |
| HistoryAgreement.QuiescentAgreement | core/session_manager.py:410-550 | once no call of a clean run is in flight, memory and rows hold the same multiset, message_count is the row count, and each add is in the replayed commits exactly once |
| HistoryAgreement.NothingLostInMemory | core/session_manager.py:304-312 | in a clean run a finished add's message is in memory exactly when it is in the rows, unless a replacement is just being installed |
| HistoryAgreement.ReplacementAgreesIff | routes/session_routes.py:1063-1065 | a plain replacement racing a pending append of either kind agrees with it exactly when it does not name its message |
| HistoryAgreement.WriteBackAgreesIff | core/session_manager.py:289-294 | an add that writes back a list and finishes alone leaves agreement exactly when the list, its message aside, held what the rows held |
| HistoryAgreement.HistoryWriteBackIsHarmless | core/session_manager.py:291-291 | writing back the history itself keeps agreement, in contents and in number |
| HistoryAgreement.StepMovesHistory | core/models.py:86-93 | a step makes the history a list object not seen before when it installs, the list held when it writes back, and otherwise leaves it |
| HistoryAgreement.HistoryMoves | core/session_manager.py:540-541 | over any stretch of any run, a list object is still the history exactly when nothing moved the history, or the last to move it wrote that list back |
| HistoryAgreement.WriteBackKeepsHistoryIff | core/session_manager.py:289-291 | the list written back by add_message is still the history object exactly when nothing moved the history since it was read, or the last to move it was a write-back of that very list |
| HistoryAgreement.StaleWriteBackDisagrees | core/session_manager.py:289-294 | a run in which a replacement is undone, ending with no call in flight, memory different from the rows and message_count different from their number |
| ChatContent.RoundTripsIff | core/session_manager.py:46-69 | stored content decodes to what was written exactly for non-empty recognized block lists and for strings that are not such a list's JSON |
| ChatContent.ScanBlocksIff | core/session_manager.py:57-66 | the scan accepts exactly lists of known blocks, and raises exactly when an unhashable type follows only those |
| ChatContent.UnhashableTypeRaises | core/session_manager.py:63-68 | an unhashable "type" makes decoding raise |
| ChatContent.HydrateIs | core/session_manager.py:213-243 | when a row loads, and what role, content, id, timestamp and other metadata the message then has |
| ChatContent.RowSnapshotIs | core/session_manager.py:102-117 | the snapshot of rows is the sequence of the rows' entries, and fails exactly when one of them does |
| ChatContent.RowEntryIs | core/session_manager.py:102-117 | the entry of a row, part by part, with undecodable metadata kept raw |
| ChatContent.HydratedSnapshotAgrees | core/session_manager.py:81-117 | for rows that load, the snapshot of the loaded history is the snapshot of the rows |
| ChatContent.ShownEntryAgrees | core/session_manager.py:102-117 | a message that shows its row has the row's snapshot entry |
| ChatContent.PersistedShowsIff | core/session_manager.py:324-341 | a persisted message equals what its row loads to, timestamps aside, exactly when its content survives storage |
| ChatContent.PersistedHydrates | core/session_manager.py:324-361 | ... and then the loaded message is the persisted one, timestamp included |
| ChatContent.ReplacementShowsIff | core/session_manager.py:494-512 | a replaced message equals what its row loads to exactly when its content survives and it carries this row's id |
| ChatContent.ReplacementHydratesIff | core/session_manager.py:498-511 | timestamp included, exactly when it had one |
| ChatContent.PersistedIsGiven | core/session_manager.py:324-354 | a message persisted, and what its row loads to, are the message as it was given, all its metadata included, with the new id and its own timestamp or else the time |
| ChatContent.ReplacementIsGiven | core/session_manager.py:489-539 | the same for a message of a replacement, whose metadata column holds no id |
| ChatStore.GetIsFreshLoad | core/session_manager.py:556-577 | get_session fails exactly for an unknown session, and otherwise returns what a fresh load of the rows builds, with counts that agree |
| ChatStore.GetKeeps | core/session_manager.py:556-651 | lazy hydration, synchronization and touching keep the books of all sessions |
| ChatStore.GetFrame | core/session_manager.py:612-637 | getting a session changes no existing message object and no other session's entry |
| ChatStore.GetTouches | core/session_manager.py:639-651 | a read sets the time of the last access of its session, and changes nothing else in the database |
| ChatStore.GetFailsIff | core/session_manager.py:612-637 | in any store: a KeyError exactly for an unknown session, a raise exactly when a row does not load |
| ChatStore.LoadMirrors | core/session_manager.py:213-243 | a loaded history mirrors its rows, message by message and in order |
| ChatStore.AppendMirrorsIff | core/session_manager.py:289-361 | after an append memory mirrors the rows exactly when the object was new to the history and its content survives storage |
| ChatStore.AddKeepsIff | core/session_manager.py:277-361 | add_message to a known session succeeds and keeps the books of all sessions under exactly that condition |
| ChatStore.AddStores | core/session_manager.py:277-361 | add_message adds one row, which loads as the message given with all its metadata, and leaves that message in memory |
| ChatStore.AddLeaves | core/session_manager.py:289-351 | ... and touches no other message and no other session's rows |
| ChatStore.AddCounts | core/session_manager.py:289-350 | ... and it is the last of the history, with both counts and the time of the last access to match |
| ChatStore.AddToDeleted | core/session_manager.py:314-321 | a cached session whose row is gone takes no message and leaves the cache |
| ChatStore.TruncateKeeps | core/session_manager.py:368-408 | truncation keeps the books, and the same first messages in memory and store; negative counts are refused |
| ChatStore.CutKeeps | core/session_manager.py:375-401 | the truncation itself, message_count being the rows that remain |
| ChatStore.CreateKeeps | core/session_manager.py:653-695 | creation keeps the books |
| ChatStore.CreatedIsEmpty | core/session_manager.py:653-700 | a created session is empty, active and as asked for; nothing else changes |
| ChatStore.DeleteKeeps | core/session_manager.py:702-743 | deletion keeps the books: no row is left without a parent |
| ChatStore.DeleteForgets | core/session_manager.py:702-747 | a deleted session is unknown to get_session, its rows are gone and its id is free; nothing else changes; the answer says whether there was one |
| ChatStore.RestartKeeps | core/session_manager.py:155-211 | a new process that caches metadata only keeps the books |
| ChatStore.RestartLists | core/session_manager.py:155-186 | a new process caches, among those asked for, exactly the sessions that are not archived and have messages or are for studying |
| ChatStore.DrainsIff | core/session_manager.py:460-483 | deleting each row read with its exact payload succeeds and leaves nothing exactly when the table holds what was read |
| ChatStore.DeleteRowIs | core/session_manager.py:461-470 | an exact delete removes one row when the table holds the row as read, and none otherwise |
| ChatStore.ReplaceAnswersIff | core/session_manager.py:434-527 | a replacement with an expected snapshot succeeds exactly when it is the current one, no other connection changed, added or removed a row, and memory still has it before the commit; with no other writer the checks never fail |
| ChatStore.ReplaceAllOrNothing | core/session_manager.py:434-550 | True leaves exactly the given messages as rows and history; False leaves rows as other connections, and memory as other threads, left them |
| ChatStore.SwapStores | core/session_manager.py:489-542 | after a successful replacement each row loads as its message, with its place in time and its id, and each message in memory is as given under that id |
| ChatStore.SwapSeesEdits | core/session_manager.py:457-473 | a row that another connection edits before the deletes, in role, content or metadata, makes the swap fail |
| ChatStore.OrphanReplaceIff | core/session_manager.py:484-520 | a cached session whose row is gone can only be replaced by nothing |
| ChatStore.NewRowsInOrder | core/session_manager.py:489-513 | the rows written are in timestamp order and have distinct ids |
| ChatStore.ReplacedMirrorsIff | core/session_manager.py:490-541 | after a replacement memory mirrors the rows exactly when every content survives and no object is listed twice |
| ChatStore.ReplaceKeepsIff | core/session_manager.py:426-550 | a successful replacement keeps the books of all sessions under exactly that condition, an unsuccessful one always |
| ChatStore.InstallKeepsIff | core/session_manager.py:515-542 | the same for the writes alone |
| ChatStore.CleanupSpares | core/session_manager.py:862-880 | cleanup deletes no message, no Study session and no empty session younger than the minimum age |
| ChatStore.CleanupIs | core/session_manager.py:862-889 | exactly which sessions cleanup deletes and which it archives, and that the others stay as they are |
| ChatStore.ReadIsNotArchived | core/session_manager.py:876-882 | a session read since the cutoff is not archived |
| ChatStore.CleanupTwice | core/session_manager.py:856-891 | a second cleanup at the same clock reading deletes and archives nothing |
| ChatStore.CleanupKeeps | core/session_manager.py:862-893 | cleanup keeps the books |
| ChatStore.SweepAllIs | core/session_manager.py:862-891 | sweeping session by session, in any order, is the cleanup of them all |
| ChatStore.CountFateIs | core/session_manager.py:854-891 | the running counts are the numbers of sessions with each fate |
| ChatStore.StepKeepsGood | core/session_manager.py:155-743 | every operation keeps the books of all sessions |
| ChatStore.RunKeepsGood | core/session_manager.py:155-743 | over every sequential run each cached history is unhydrated with a positive count or mirrors its rows in order, message_count is the row count and every row has a parent |
| ChatStore.EmptyStoreGood | core/session_manager.py:131-135 | an empty database and cache to start from |
| SessionManagers.SessionManager.LoadSessions | core/session_manager.py:155-186 | caches the metadata of exactly the loadable sessions listed |
| SessionManagers.SessionManager.HydrateRows | core/session_manager.py:219-243 | the decoding loop computes the decoded history or fails |
| SessionManagers.SessionManager.LoadSessionFromDb | core/session_manager.py:612-637 | loads as specified, and changes nothing when it raises |
| SessionManagers.SessionManager.GetSession | core/session_manager.py:556-577 | get_session in place, exceptions included |
| SessionManagers.SessionManager.AddMessage | core/session_manager.py:277-294 | add_message in place |
| SessionManagers.SessionManager.PersistMessage | core/session_manager.py:301-361 | the repair, the dropped message of a deleted session, the row, the counts and the stamped id |
| SessionManagers.SessionManager.TruncateMessages | core/session_manager.py:368-408 | truncate_messages in place |
| SessionManagers.SessionManager.DeleteExact | core/session_manager.py:460-483 | the delete loop on the table itself and the final count answer whether the table was what was read |
| SessionManagers.SessionManager.VersionMatches | core/session_manager.py:437-483 | the first version checks and the deletes, rolled back when one fails |
| SessionManagers.SessionManager.RecheckAndInstall | core/session_manager.py:515-542 | the last check of memory, then the writes and the commit, or a rollback of the deletes |
| SessionManagers.SessionManager.SwapMessages | core/session_manager.py:434-550 | the whole transaction, with what other connections and threads do in between |
| SessionManagers.SessionManager.WriteRows | core/session_manager.py:489-513 | the rows of a replacement |
| SessionManagers.SessionManager.StampMessages | core/session_manager.py:536-539 | the ids stamped into the message objects, in turn |
| SessionManagers.SessionManager.InstallMessages | core/session_manager.py:489-542 | the writes of a replacement in place |
| SessionManagers.SessionManager.ReplaceMessages | core/session_manager.py:410-550 | replace_messages in place, exceptions of get_session included |
| SessionManagers.SessionManager.CreateSession | core/session_manager.py:653-700 | create_session in place; an existing id raises and changes nothing |
| SessionManagers.SessionManager.DeleteSession | core/session_manager.py:702-747 | delete_session in place, a session that lives only in memory included |
| SessionManagers.SessionManager.CleanupSession | core/session_manager.py:862-891 | what the loop body of the cleanup does with one session |
| SessionManagers.SessionManager.CleanupEmptySessions | core/session_manager.py:845-903 | the cleanup in place, with its two counts |
| SessionFile.StepKeepsInv | core/atomic_io.py:22-73 | every step of every writer, every failure and every crash keeps the invariant of the file |
| SessionFile.FileAlwaysWhole | core/atomic_io.py:22-73 | the file always holds one complete table that memory once held, and tables appear in lock order |
| SessionFile.ReplacePublishesCurrent | core/auth.py:263-275 | each replacement of the file makes it the current table |
| SessionFile.RevokedNeverReappears | core/auth.py:1089-1114 | a token taken out, with the file replaced since by any thread, never reappears in table or file across other saves and process kills, and after the directory sync not even across a power loss |
| SessionFile.RevokedInFileIff | core/auth.py:258-275 | with no crash in between, a revoked token is in the file exactly when it was and no thread has replaced it since, and in what a power loss may uncover exactly when it was and no thread has synced the directory since |
| SessionFile.CrashReturnsIff | core/auth.py:231-256 | a crash brings a token back exactly when it has not expired and is in the file that is loaded |
| SessionFile.RevokedReturnsIff | core/auth.py:231-275 | the first crash after a revocation brings the token back exactly when it has not expired and was in the file that is loaded, with no replacement of it, or for an older file no directory sync, in between |
| SessionFile.DiskEqualsMemoryIff | core/auth.py:231-275 | at every point of every run, crashes included, disk equals memory exactly when the file was replaced since memory was last set, or memory was set to what the file held |
| SessionFile.DiskEqualsLoaded | core/auth.py:231-256 | until something sets it, memory is what was loaded from the file |
| SessionFile.DiskEqualsMemory | core/auth.py:263-275 | when all threads are done disk equals memory, unless the save of the last change failed |
| SessionFile.FailedSaveLosesRevocation | core/auth.py:274-275 | a run in which a swallowed write error brings a revoked token back |
| SessionFile.UnsyncedRevocationReturns | core/atomic_io.py:50-63 | a run in which a power loss between the replacement and the directory sync brings a saved revocation back |
| Accounts.RunKeepsGood | core/auth.py:404-805 | every run keeps at least one admin, active and retired names disjoint, names normal, and sessions naming active users only |
| Accounts.ApplyKeepsAdmin | core/auth.py:506-805 | no operation removes the last admin |
| Accounts.ApplyKeepsDisjoint | core/auth.py:404-674 | no operation makes a name both active and retired |
| Accounts.ApplyKeepsSessions | core/auth.py:506-674 | no operation leaves a session of an inactive user |
| Accounts.CreateAdds | core/auth.py:463-504 | under the stated conditions creation adds a user with exactly these privileges and changes nothing else |
| Accounts.DeleteRemoves | core/auth.py:506-574 | ... deletion removes and retires one user |
| Accounts.RenameMoves | core/auth.py:576-622 | ... rename moves one record and retires the old name |
| Accounts.RetireHolds | core/auth.py:404-422 | ... retirement retires one name |
| Accounts.EditChanges | core/auth.py:703-731 | an edit of privileges sets exactly the known keys it names, for one user |
| Accounts.AdminIsNotEdited | core/auth.py:716-722 | an edit of an admin changes nothing |
| Accounts.SetAdminAnswerIs | core/auth.py:763-782 | which of the four answers set_admin gives: the last admin is one without whom there is none |
| Accounts.SetAdminSets | core/auth.py:783-805 | after promotion a user has all privileges, after demotion none of an admin, and nobody else changes |
| Accounts.OnlyAuthorizedChange | core/auth.py:463-805 | accounts change only on the request of an admin or of an internal call |
| Accounts.NewNameWasFree | core/auth.py:463-674 | a name that becomes active was free, and reserved or retired only when a rollback restores it |
| Accounts.PrefixIsReserved | core/auth.py:89-101 | every spelling of a name with a reserved prefix is reserved |
| Accounts.UnavailableRefuses | core/auth.py:463-1114 | while the credential store is unavailable nothing changes and no token is valid |
| Accounts.SessionLastsIff | core/auth.py:1031-1114 | a session is still there after a run exactly when no operation ended it: its revocation, that of its user, their deletion, or a check too late |
| Accounts.IssuedAuthenticatesIff | core/auth.py:1011-1058 | an issued token authenticates after any run exactly while unexpired and its session not ended |
| Accounts.RevokedIsRefused | core/auth.py:1089-1095 | a revoked token is refused after any run in which it is not issued anew; other sessions are untouched |
| Accounts.OnlyRollbackUnretires | core/auth.py:624-674 | a name leaves retirement exactly by an accepted rollback to it |
| Accounts.RollbackAcceptedIff | core/auth.py:624-655 | after a rename its rollback is accepted exactly for a requester who is an admin by then |
| Accounts.ReattributeBackIff | core/auth.py:606-620 | handing sessions over and back restores them exactly when none carried the new name and the old one was spelled in normal form |
| Accounts.RollbackRestoresIff | core/auth.py:576-674 | what rename and rollback restore, with the exact conditions |
| Accounts.RollbackRestores | core/auth.py:576-674 | in a good state they restore users, retired names and sessions exactly |
| Accounts.StashSurvivesOp | core/auth.py:576-805 | an admin's stash survives every operation that does not demote or delete the record, renames included |
| Accounts.StashSurvivesRun | core/auth.py:576-805 | ... and every run of them |
| Accounts.DemotionUndoesPromotion | core/auth.py:741-805 | from a promotion to the next demotion of the record the effective privileges are restored |
| Accounts.CreatedAdminDemotesToDefaults | core/auth.py:463-504 | a user created as admin demotes to the defaults |
| Accounts.RenameGapIff | core/auth.py:598-617 | after any run of operations between the halves of a rename, every session names an active user exactly when the new name is still active or nothing is left to hand over |
| Accounts.ReservedRenameKeepsSessions | routes/auth_routes.py:238-318 | with the new name reserved, no run of operations in between leaves a session of an inactive user |
| Accounts.RenameAroundDeleteIff | core/auth.py:506-622 | an unreserved deletion of the new name in between leaves one exactly when the old name had sessions |
| Accounts.DeleteGapKeepsSessions | core/auth.py:547-574 | no run of operations between the halves of a deletion leaves a session of an inactive user |
| Accounts.OrphanAuthenticatesIff | core/auth.py:1031-1058 | a session of a retired name, present and unexpired after any run, authenticates exactly when a rollback in the run restored the name |
| AuthManager.Manager.CreateUser | core/auth.py:463-504 | create_user in place: its checks in order and its effect |
| AuthManager.Manager.DeleteUser | core/auth.py:506-574 | delete_user in place |
| AuthManager.Manager.RenameUser | core/auth.py:576-622 | rename_user in place |
| AuthManager.Manager.RollbackUserRename | core/auth.py:624-674 | rollback_user_rename in place |
| AuthManager.Manager.RenameSessions | core/auth.py:606-620 | the loop that hands sessions over |
| AuthManager.Manager.PopSessions | core/auth.py:1104-1111 | the loop that drops sessions, and its count |
| AuthManager.Manager.RetireUsername | core/auth.py:404-422 | retire_username in place |
| AuthManager.Manager.CountAdmins | core/auth.py:774-777 | the number of admins |
| AuthManager.Manager.Promote | core/auth.py:783-793 | the three writes of a promotion |
| AuthManager.Manager.Demote | core/auth.py:794-802 | the writes of a demotion |
| AuthManager.Manager.SetAdmin | core/auth.py:741-805 | set_admin in place with its four answers |
| AuthManager.Manager.Overlay | core/auth.py:723-727 | the loop that copies known keys |
| AuthManager.Manager.SetPrivileges | core/auth.py:703-731 | set_privileges in place |
| AuthManager.Manager.CreateSessionTrusted | core/auth.py:1011-1029 | a session only for an active user |
| AuthManager.Manager.ValidateToken | core/auth.py:1031-1058 | valid exactly while unexpired and the account exists; otherwise dropped |
| AuthManager.Manager.RevokeToken | core/auth.py:1089-1095 | revoke_token in place |
| AuthManager.Manager.RevokeUserSessions | core/auth.py:1097-1114 | drops a user's sessions but one, and counts them |
| Privileges.MergeOrDefault | core/auth.py:689-701 | stashing or restoring a map does not change what it grants |
| Privileges.EffectiveIs | core/auth.py:689-701 | an ordinary user has every default key, with the stored value where there is one |
| Privileges.AdminIsUnlimited | core/auth.py:689-701 | an admin has every flag but the two restrictions, and no limit |
| PrivilegeReads.StepKeepsOk | core/auth.py:783-802 | every single write and read keeps what the reader may still answer among the maps seen |
| PrivilegeReads.WritesMakeSetAdmin | core/auth.py:783-802 | the single writes the reader interleaves with are, in sequence, what set_admin does to a record |
| PrivilegeReads.ReadIsLinearizable | core/auth.py:689-701 | in every interleaving the map get_privileges returns was the effective map at some instant of the call |
| PrivilegeReads.NoEscalation | core/auth.py:778-802 | no intermediate state leaves an ordinary user with a map never granted |
| PrivilegeReads.GrantedOnlyBySetting | core/auth.py:703-731 | a map counts as granted only when it was at first or has been set since |
| ContentLength.ParseDecimal | core/project_upload_limit.py:102-106 | parsing a printed number gives the number |
| ContentLength.DecimalIff | core/project_upload_limit.py:105-106 | the canonical decimal of a number is the one string of digits that says it without a needless zero in front |
| ContentLength.ValueIff | core/project_upload_limit.py:101-108 | a header counts for n exactly when its stripped value is the canonical decimal of n |
| ContentLength.NameIgnoresCase | core/project_upload_limit.py:98-100 | the header is recognized in any case of its letters, and no other |
| ContentLength.NotAsciiDeclaresNothing | core/project_upload_limit.py:101-105 | a value with a byte beyond ASCII declares nothing |
| ContentLength.DeclaredContentLength | core/project_upload_limit.py:89-113 | the declared length is n exactly when a Content-Length header exists and each is the canonical decimal of n |
| UploadLimit.BoundedCall.ReceiveLimited | core/project_upload_limit.py:195-221 | the bounded receive: counting, timeouts and trips |
| UploadLimit.BoundedCall.SendLimited | core/project_upload_limit.py:223-228 | output passes exactly while nothing has tripped |
| UploadLimit.BoundedCall.Finish | core/project_upload_limit.py:230-240 | the answer that follows the application |
| UploadLimit.HandleUpload | core/project_upload_limit.py:171-240 | early rejection without receiving, otherwise the bounded call of an arbitrary application |
| UploadLimit.ReceiveIs | core/project_upload_limit.py:195-221 | a receive before the end of the body times out exactly when idle or total time is up, delivers nothing then, and otherwise counts and delivers or trips |
| UploadLimit.LateReceiveIs | core/project_upload_limit.py:195-197 | after the end of the body a receive is passed on |
| UploadLimit.AnswerIs | core/project_upload_limit.py:230-240 | which answer follows any run of the application |
| UploadLimit.RunBalanced | core/project_upload_limit.py:195-221 | for every application and every body that follows ASGI the counter is the bytes taken and overflow means more than the limit |
| UploadLimit.BytesBounded | core/project_upload_limit.py:212-219 | bytes handed to the application never exceed the limit |
| UploadLimit.TrippedStays | core/project_upload_limit.py:223-228 | after a trip no application output reaches the client |
| UploadLimit.TrippedAnswers | core/project_upload_limit.py:230-240 | ... and exactly one answer follows, 413 on overflow and otherwise 408 |
| UploadLimit.FittingIsTransparent | core/project_upload_limit.py:188-240 | a fitting and timely body makes the limiter transparent both ways |
| UploadLimit.EarlyRejectionAgrees | core/project_upload_limit.py:176-181 | for an honest length early rejection happens exactly when the counter would trip |
| IdentityMigration.NothingNewIff | core/database.py:4477-4487 | the final check passes exactly when every violation reported afterwards was reported before |
| IdentityMigration.UpgradeKeepsRows | core/database.py:4316-4447 | every row keeps its id, account, provider, subject and every value of a column that existed |
| IdentityMigration.UpgradeFills | core/database.py:4316-4347 | which issuer, state and dates the missing values become |
| IdentityMigration.UpgradedSchemaIs | core/database.py:4348-4476 | the columns and indexes afterwards, spelled out |
| IdentityMigration.UpgradeMovesUniqueness | core/database.py:4348-4476 | afterwards no unique index covers (provider, subject), one covers (provider, issuer, subject) and the rows obey it; created indexes unique over neither key, the canonical indexes and the triggers are there |
| IdentityMigration.UpgradeKeepsIndexIff | core/database.py:4373-4459 | which indexes an upgrade drops: without a rebuild none, with one the created indexes unique over either key and those of constraints that the new table lacks |
| IdentityMigration.PartialIndexIsDropped | core/database.py:4376-4387 | a rebuild drops a partial unique index over the three key columns |
| IdentityMigration.RebuiltIndexesAre | core/database.py:4373-4459 | the indexes after a rebuild |
| IdentityMigration.AddedIndexesAre | core/database.py:4461-4476 | the indexes after an upgrade without a rebuild |
| IdentityMigration.UpgradeAddsNoViolation | core/database.py:4477-4487 | no foreign-key violation is added |
| IdentityMigration.UpgradeIdempotent | core/database.py:4184-4513 | upgrading again at any time changes nothing |
| IdentityMigration.RebuildCheckIff | core/database.py:4427-4487 | the check after a rebuild passes exactly when each dangling row was reported under key 0 and no rowid is unused before it |
| IdentityMigration.LegacyUpgradesIff | core/database.py:4274-4487 | the exact condition under which a legacy table upgrades |
| IdentityMigration.PlainUpgradesIff | core/database.py:4460-4487 | the exact condition under which a table without a legacy index upgrades |
| IdentityMigration.FilledUniqueIff | core/database.py:4316-4347 | without an issuer column the new key is as unique as the old one |
| IdentityMigration.UnusedRowidRefuses | core/database.py:4477-4487 | an upgrade refused although nothing new is violated |
| IdentityMigration.Connection.FillRows | core/database.py:4316-4347 | the added columns and the two updates, row by row |
| IdentityMigration.Connection.Classify | core/database.py:4348-4371 | what the index list says |
| IdentityMigration.Connection.CollectPreserved | core/database.py:4373-4389 | the indexes to recreate |
| IdentityMigration.Connection.CollectTriggers | core/database.py:4391-4398 | the trigger statements collected before the table is dropped recreate exactly the triggers there were |
| IdentityMigration.Connection.RecreateTriggers | core/database.py:4457-4458 | executing them in turn |
| IdentityMigration.Connection.RunTransaction | core/database.py:4295-4488 | the transaction, which drops the table with its indexes and triggers and recreates them, commits the specified result or raises, and raises only when specified or refused by the engine |
| IdentityMigration.Connection.Migrate | core/database.py:4261-4513 | a raise leaves rows and schema as they were unless enforcement cannot be restored; enforcement is restored |
| SearchIndex.WithoutIs | core/database.py:6239-6249 | deleting the entries of an id removes exactly those |
| SearchIndex.MirrorSays | core/database.py:6225-6262 | of each message the index holds one entry with its text, session and role, and of nothing else any |
| SearchIndex.BackfillIff | core/database.py:6252-6262 | entries for exactly the messages without one leave a mirror exactly when the old entries were sound |
| SearchIndex.Backfill | core/database.py:6252-6262 | one true entry for every message that had none |
| SearchIndex.Database.Migrate | core/database.py:6206-6263 | with no table the index mirrors the messages afterwards; rerunning changes nothing |
| SearchIndex.Database.Insert | core/database.py:6233-6237 | inserts keep exactly one true entry per message |
| SearchIndex.Database.Delete | core/database.py:6239-6242 | ... deletes too |
| SearchIndex.Database.Update | core/database.py:6244-6249 | ... and updates, of the id too |
| EmailDraft.FindQuote | mcp_servers/email_server.py:1313-1321 | the loop finds the least index of any marker |
| EmailDraft.MergeReplyBody | mcp_servers/email_server.py:1307-1326 | the merge |
| EmailDraft.MergeIs | mcp_servers/email_server.py:1307-1327 | where the header block, the stripped reply, the blank line and the quote stand in a merge |
| EmailDraft.QuoteIs | mcp_servers/email_server.py:1316-1322 | the quote runs from the first marker to the last character that is not space |
| EmailDraft.MarkersAre | mcp_servers/email_server.py:1311-1315 | the three texts that begin a quoted message |
| EmailDraft.MergePreserves | mcp_servers/email_server.py:1307-1326 | a merge keeps the header block, and the quoted chain unless the reply brings a marker |
| EmailDraft.LastWriterWinsIff | mcp_servers/email_server.py:1307-1326 | merging is last-writer-wins exactly when the first reply holds no marker |
| EmailDraft.QuoteAfterMerge | mcp_servers/email_server.py:1313-1326 | the quote found after a merge is the old one, or a longer one when the reply brought a marker |
| EmailDraft.StripKeepsMarkers | mcp_servers/email_server.py:1322-1325 | stripping loses no marker |
| EmailDraft.BuildDocument | mcp_servers/email_server.py:1278-1304 | the built document |
| EmailDraft.HeadIs | mcp_servers/email_server.py:1290-1304 | the header block literally: which header carries which value, in which order |
| EmailDraft.RecoversIff | mcp_servers/email_server.py:1278-1304 | splitting a built document at the first separator recovers the body and every header field exactly when no header value holds a line break |
| EmailDraft.BodyRecoveredIff | mcp_servers/email_server.py:1304-1304 | the body alone is recovered exactly when the header block holds no separator |
| EmailDraft.SeparatorAfterHeadIff | mcp_servers/email_server.py:1304-1311 | the first separator is the one after the header block exactly when none stands inside it or across its end |
| EmailDraft.LineBreakMovesSeparator | mcp_servers/email_server.py:1284-1304 | a recipient with a line break can put a separator inside the header block |
| Scopes.NormalizeScopes | routes/api_token_routes.py:46-83 | an unknown scope is refused; otherwise the loops compute the normalized list |
| Scopes.NormalizedIs | routes/api_token_routes.py:58-83 | a duplicate-free list of allowed scopes, the smallest closed superset of the request, with the request's first occurrences in order |
| Scopes.ReadStandsBeforeWrite | routes/api_token_routes.py:67-81 | a read scope that was not asked for stands directly in front of the write scope that brought it |
| Scopes.EnsureAllIs | routes/api_token_routes.py:66-81 | the insertions alone |
| Scopes.NormalizeIdempotent | routes/api_token_routes.py:46-83 | normalizing again changes nothing |
| Scopes.StoredReadsBack | routes/api_token_routes.py:194-201 | the comma-joined column reads back as the list |
| Scopes.ResubmittedIsSame | routes/api_token_routes.py:46-57 | submitting a stored column again asks for the same scopes |
| Scopes.PolicySound | routes/api_token_routes.py:66-81 | the nine pairs form no chain and need only allowed scopes |
| Scopes.PolicySeparate | routes/api_token_routes.py:73-81 | no two of the nine pairs share a write scope or a read scope |
| Scopes.WriteScopesBringReads | routes/api_token_routes.py:73-79 | every allowed scope to write in an area is paired with the one to read in it |
| Scopes.ProfilesAllowed | routes/api_token_routes.py:35-43 | the profiles ask only for allowed scopes |
| Scopes.ProfileDecides | routes/api_token_routes.py:47-57 | a profile decides alone, an unknown one is refused, and nothing given means the default |
| Scopes.StripAllSays | routes/api_token_routes.py:53-55 | entries count without the space around them, and empty ones not at all |
| Scopes.SpacesSeparate | routes/api_token_routes.py:54-55 | a text with spaces between the names asks for those names |
| Scopes.AllowedStorable | routes/api_token_routes.py:12-34 | every allowed scope survives storage |
| Text.FindIs | mcp_servers/email_server.py:1308-1312 | the first occurrence is characterized by occurring and by nothing before it |
| Text.StripIsSlice | mcp_servers/email_server.py:1322-1325 | stripping takes a slice and only space off its ends |
| Text.PaddingStrips | core/auth.py:210-213 | blanks, tabs and line ends around a string make no difference to strip |
| Text.JoinedSplitsIff | mcp_servers/email_server.py:1304-1304 | splitting a joined list gives as many parts as were joined exactly when none held the separator |
| Text.SplitJoin | routes/api_token_routes.py:194-201 | splitting a joined list gives back its parts when none holds the separator |
| Text.NormalizeIdempotent | core/auth.py:210-213 | a normalized name is its own normal form |
| Text.NormalizeAlikeIff | core/auth.py:210-213 | two names have one normal form exactly when, stripped, they differ in nothing but the case of ASCII letters |

## Left out

- ChatStore.RunKeepsGood: message fields other than role, content, metadata and timestamps, and session fields that the
  cleanup and the counts do not read (names, endpoints, headers, owner, last_message_at), are not modelled.
- ChatStore.CleanupSpares: a Study session is one with the mode `study`; that the cleanup, unlike the loading of
  sessions, ignores the case of the mode is not modelled.
- ChatStore.GetIsFreshLoad: equality is of id, role, content and metadata; the display timestamp of a replaced message
  without one differs until it is loaded again (see `ReplacementHydratesIff`).
- ChatStore.DeleteKeeps: documents detached from a deleted session and its Study state are not modelled.
- SessionManagers.SessionManager.SwapMessages: another connection commits between the read of the rows and the first
  delete; a commit between the final count and the insertion, which the database serializes, is not modelled.
- SessionManagers.SessionManager.AddMessage: message objects live in an explicit map from identities to values, not in
  Dafny's heap, so that the properties can be lemmas about values.
- HistoryAgreement.QuiescentAgreement: the in-memory message_count, truncation, deletion and re-hydration of an empty
  cached history are not in the concurrent model; contents are identities there, and are treated in ChatContent.
- HistoryProtocol.StepKeepsBooks: `db.commit()` and the stamping of `_db_id` after it (core/session_manager.py:351-354)
  are one step, and so are the identity scan and the append of the repair, which read `cached.history` one after the
  other (core/session_manager.py:305-306).
- SessionFile.StepKeepsInv: chmod and the logging of a failed write are no steps; tokens and users are numbers.
- Accounts.RunKeepsGood: password hashing, two-factor secrets, single-user and secret migrations, sign-up and first-run
  setup, and the token database (a parameter of a deletion) are left out. Tokens are represented by their digests.
- PrivilegeReads.ReadIsLinearizable: a rename during the read, and the locked map of an unavailable store, are not modelled.
- Text.NormalizeIdempotent: lower() is that of ASCII; other characters are kept as they are.
- ContentLength.DeclaredContentLength: the interpreter's limit on the number of digits that int() accepts is not modelled.
- UploadLimit.BoundedCall.ReceiveLimited: a message that arrives exactly at its deadline counts as late; the path match,
  the semaphore and the bodies of the two responses are left out.
- UploadLimit.TrippedAnswers: when the application raises an exception of its own after a trip, it goes on to the caller
  and no answer is sent; what the application sent before the trip has reached the client.
- IdentityMigration.Connection.RunTransaction: the engine's other reasons to refuse a statement are a parameter; the
  effects of existing triggers when the two updates touch the rows, foreign keys of the table other than that of the
  account, and the texts of index statements are not modelled.
- SearchIndex.Database.Insert: statements on many rows are sequences of single-row statements; INSERT OR REPLACE is not
  modelled. The columns compared only for equality are numbers.
- Scopes.NormalizeScopes: an empty request, which gives the default scope, is a case of its own in the laws.
- EmailDraft.BuildDocument: how an absent value is rendered is modelled as the empty string.
- Lease, outbox and action-proposal tables, other migrations, routes, mail transport and process startup are not part of
  this model.

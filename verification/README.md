# Discord event synchronisation, modelled in Dafny

This project models the core of a Discord bot that keeps a relational store in step with a guild's scheduled events. The store holds users, events and event participations.

- **`SynchronizationService`** (`synchronization_service.py`) does the real work:
  - `sync_guild` runs a full reconciliation pass in three steps. It creates missing events, mirrors each event's remote participants into the store, and brings the user table in line with the guild's members. It then publishes the joins and leaves it found.
  - `handle_user_add` and `handle_user_remove` apply one gateway subscription or unsubscription in real time.
  - A per-(user, event) cooldown suppresses duplicate announcements.
- **The SQLite repositories** (`sqlite_repository.py`): for users, events and participations, plus `get_stats`.
- **`SQLiteUnitOfWork`** (`unit_of_work_impl.py`): the transaction wrapper that each pass and handler runs inside.
- **The legacy `EventLogger` cog** (`eventlogger.py`): a TinyDB document of subscribers per event, reconciled once at start-up by `bot_ready_check`.
- **`create_text_table`** and the lenient conversions **`safe_int`, `safe_str`, `safe_bool` and `truncate_string`**.

Modules, one file each:

| file | module | models |
|---|---|---|
| `wrappers.dfy` | `Wrappers` | `Option` / `Result` |
| `text.dfy` | `Text` | `str.strip`, `ljust`, `lower` and `join` on `seq<char>` |
| `store.dfy` | `Store` | the store as immutable maps keyed by Discord id, with the repository operations |
| `unit_of_work.dfy` | `UnitOfWork` | the unit of work as a state machine. It has a durable store and an optional open session. Driver failures are boolean inputs. |
| `cooldown.dfy` | `Cooldown` | the cooldown table. Time is an integer number of seconds; the window is a parameter. |
| `differ.dfy` | `Differ` | the set difference both reconciliation steps use |
| `notify.dfy` | `Notify` | display-name extraction, queued entries and message texts |
| `sync_steps.dfy` | `SyncSteps` | one event's join loop and leave loop |
| `member_sync.dfy` | `MemberSync` | `_sync_members_table` |
| `sync_pass.dfy` | `SyncPass` | `sync_guild` |
| `handlers.dfy` | `Handlers` | the two real-time handlers |
| `event_logger.dfy` | `EventLogger` | the legacy cog |
| `text_table.dfy` | `TextTable` | `create_text_table` |
| `utils.dfy` | `Utils` | the conversion helpers |

**Iteration order.** Python iterates sets in an unspecified order. The loops over new and removed participants and members are therefore methods that pick an arbitrary remaining element, and their contracts hold for every order.

**Independent statements.** Each full-pass result is stated against a definition that does not follow the loops:
- `SyncPass.Owed` says which announcements a pass owes.
- `SyncPass.PassCommitted` says which store a committed pass leaves.
- `MemberSync.MembersSynced` does the same for the user table.
- `EventLogger.Expected` does the same for the legacy check.

**Behaviour of the code worth knowing:**
- `sync_guild` never archives events. Nothing in the pass calls `mark_as_passed`, so events that disappear remotely stay active in the store. Only the legacy cog archives.
- A roster fetch that fails with `Forbidden` or `HTTPException` (`_collect_event_participants`, lines 182–202) returns the participants collected before the error. The pass then removes every stored participation that was not yet fetched, all of them when the fetch fails at once. In the model the roster is an input, so a partial roster is just one case of it.
- A member fetch that fails the same way (`_sync_members_table`, lines 313–328) also keeps what it collected. Only an empty result falls back to the cached `guild.members`. A non-empty partial result therefore deletes every stored user outside it, with their participations.
- In the legacy cog, iterating an event's `users()` is not guarded (`eventlogger.py`, lines 65–67). An exception there leaves `bot_ready_check` before anything is saved.
- When the final commit fails, the store is rolled back. The cooldown stamps of that pass stay, because they live in an in-memory dict, and nothing is published.

## Model

| member | source | states |
|---|---|---|
| Cooldown.Record | src/bot/domain/services/synchronization_service.py:42-46 | While disabled the table is unchanged. Otherwise the pair is stamped with `now` and every other pair keeps its stamp. |
| Cooldown.StampAll | src/bot/domain/services/synchronization_service.py:102-120 | Recording a set of pairs at one time stamps exactly those pairs with that time and leaves the rest. |
| Cooldown.StampAllUnion | src/bot/domain/services/synchronization_service.py:102-120 | Two batches of records at the same time equal one batch of their union, so the order of the pass's loops does not matter to the table. |
| Cooldown.RecordExtendsStamps | src/bot/domain/services/synchronization_service.py:102-104 | Recording one more pair after a batch is the batch extended by that pair. |
| Cooldown.SuppressedAfterRecord | src/bot/domain/services/synchronization_service.py:32-46 | Right after an action is recorded at `t0`, the pair is suppressed at `now` if and only if the window is enabled and `now - t0` is below it. |
| Cooldown.RecordIsolated | src/bot/domain/services/synchronization_service.py:32-46 | Recording one pair never changes whether a different pair is suppressed. |
| Cooldown.PassNotifications | src/bot/domain/services/synchronization_service.py:102-104 | When the full pass handles a stream of actions on one pair, the number of notifications is exactly the number of announced actions. The first is announced if and only if the table does not suppress it. Each later one is announced if and only if the feature is disabled or it comes at least a window after the action before it. The final table stamps the pair with the last action's time, and with the feature disabled every action is announced and the table is unchanged. |
| Cooldown.TwoActions | src/bot/domain/services/synchronization_service.py:102-104 | Two actions less than a window apart give one notification; two actions a window or more apart give two. This is an instance of the exact count. |
| Differ.Diff | src/bot/domain/services/synchronization_service.py:87-88 | The new and removed sets are disjoint. The new set is inside remote and outside local; the removed set is inside local and outside remote. Applying both to local yields remote. |
| Differ.DiffUnique | src/bot/domain/services/synchronization_service.py:87-88 | Any delta that only adds missing elements, only removes present ones and turns local into remote is that diff. |
| Differ.DiffOfApplied | src/bot/domain/services/synchronization_service.py:87-88 | Diffing again after applying a diff finds nothing to add or remove. |
| Differ.DiffKeepsCommon | src/bot/domain/services/synchronization_service.py:339-340 | An id both local and remote is neither added nor removed. |
| Notify.DisplayName | src/bot/domain/services/synchronization_service.py:386-416 | With no object the result is the `Utilisateur <id>` placeholder. A `member` attribute that is a guild member wins. An object without a `user` attribute that is itself a member or user gives its own name. |
| Notify.DisplayNameIsFirstCandidate | src/bot/domain/services/synchronization_service.py:386-416 | The display name is the first present candidate, in the source's order of preference. Only when no candidate is present is it the placeholder. |
| Notify.Message | src/bot/domain/services/synchronization_service.py:373-378 | Every message is non-empty and starts with `➕` if and only if it announces a join. |
| Notify.Publish | src/bot/domain/services/synchronization_service.py:353-383 | The header comes first, followed by at most one message per entry. When every entry's event is known there are exactly `1 + len(notifications)` texts, and text `i + 1` is the message of entry `i`. |
| Notify.MessagesAppend | src/bot/domain/services/synchronization_service.py:368-383 | The messages of two queues one after the other are the first queue's messages followed by the second's, so publishing keeps queue order. |
| Notify.MessagesAllKnown | src/bot/domain/services/synchronization_service.py:368-383 | When every entry's event is known, there is one message per entry and the i-th message is the i-th entry's. |
| Store.UserGetOrCreate | src/bot/core/repositories/sqlite_repository.py:33-48 | An unknown id gets a new user with the next primary key and official name `official_name or username`. A known id keeps its key and official name and takes the new username. No other user changes and the invariant is kept. |
| Store.GetOrCreateIdempotent | src/bot/core/repositories/sqlite_repository.py:33-48 | Asking twice with the same arguments gives the same store and user as asking once. |
| Store.UserUpdateUsername | src/bot/core/repositories/sqlite_repository.py:60-66 | An unknown id gives `None` and no change. Otherwise only that user's username is replaced. |
| Store.UserDelete | src/bot/core/repositories/sqlite_repository.py:68-73 | Returns true if and only if a user had that primary key. Exactly the users with that key are removed, together with their participations (cascade). Everything else is kept. |
| Store.UserDeleteRemovesOne | src/bot/core/repositories/sqlite_repository.py:68-73 | In a valid store a successful delete removes exactly one user. |
| Store.EventCreate | src/bot/core/repositories/sqlite_repository.py:99-103 | An id already stored fails on the unique column. Otherwise the store gets a not-passed event with the next key and the given name, and nothing else changes. |
| Store.EventUpdateName | src/bot/core/repositories/sqlite_repository.py:110-116 | An unknown id gives `None` and no change. Otherwise only that event's name is replaced. |
| Store.EventMarkAsPassed | src/bot/core/repositories/sqlite_repository.py:118-124 | An unknown id gives `None` and no change. Otherwise only that event's `is_passed` flag is set. |
| Store.MarkAsPassedIdempotent | src/bot/core/repositories/sqlite_repository.py:118-124 | Marking twice is marking once. |
| Store.MarkAsPassedLeavesActive | src/bot/core/repositories/sqlite_repository.py:118-124 | Marking a stored event passed removes exactly that event from the active ones. |
| Store.EventDelete | src/bot/core/repositories/sqlite_repository.py:126-131 | Returns true if and only if an event had that key. Exactly those events and their participations are removed. |
| Store.ParticipationsOfAfterWrites | src/bot/core/repositories/sqlite_repository.py:146-178 | What `get_by_event` returns after the writes. A successful `create_participation` adds the pair to its own event's participations and to no other event's. `remove_participation` takes the pair out of its event's participations and leaves every other event's as they were. |
| Store.ParticipationRemove | src/bot/core/repositories/sqlite_repository.py:169-178 | Returns true if and only if the pair was stored. Exactly that pair is removed, and an absent pair leaves the store identical. |
| Store.CreateRemoveInverse | src/bot/core/repositories/sqlite_repository.py:156-178 | Removing a stored pair and creating it again restores the store. Creating an absent pair and removing it does too, and reports the removal. |
| Store.StatsAfterCreate | src/bot/core/repositories/sqlite_repository.py:323-336 | A successful participation insert raises the participation count by one and leaves the other counts alone. |
| UnitOfWork.Rollback | src/bot/infrastructure/unit_of_work_impl.py:58-65 | Never raises and never changes the durable store. A successful rollback resets the session to it. |
| UnitOfWork.Exit | src/bot/infrastructure/unit_of_work_impl.py:38-45 | With an exception in flight: roll back, close, re-raise. Otherwise commit, then close. If that commit raises, the session is left open. |
| UnitOfWork.ExitSkipsCloseOnCommitFailure | src/bot/infrastructure/unit_of_work_impl.py:38-45 | Leaving a block whose commit fails raises with the session still open. |
| UnitOfWork.ExitClosing | src/bot/infrastructure/unit_of_work_impl.py:38-76 | On every path the session ends closed. The call raises if and only if an exception was in flight or the commit failed. Exactly on a clean exit with a successful commit does the session become durable. |
| UnitOfWork.ExitClosingAgrees | src/bot/infrastructure/unit_of_work_impl.py:38-45 | The closing variant and the code as written agree on what becomes durable and on whether the call raises. |
| UnitOfWork.TransactionAtomic | src/bot/infrastructure/unit_of_work_impl.py:38-56 | Whatever a block wrote becomes durable in full on a clean exit with a successful commit. Otherwise none of it does, and the call raises exactly then. |
| UnitOfWork.UnchangedSessionCommitsNothing | src/bot/infrastructure/unit_of_work_impl.py:38-56 | Leaving a block that wrote nothing keeps the store as it was. |
| SyncSteps.JoinStore | src/bot/domain/services/synchronization_service.py:90-100 | One newcomer: exactly its participation is added. An unknown user is created with the roster display name, and stored users are untouched. The entry's name is the stored username, or for a new user the display name. |
| SyncSteps.LoggedStep | src/bot/domain/services/synchronization_service.py:102-104 | Handling one more user queues its entry only if the pair is not in cooldown, then records the pair. This keeps "every handled pair stamped, one entry per unsuppressed handled user". |
| SyncSteps.ApplyJoins | src/bot/domain/services/synchronization_service.py:90-110 | After the join loop:<ul><li>participations = before + the newcomers' pairs, and the newcomers are users;</li><li>stored users are untouched, and new users carry their display name;</li><li>every newcomer's pair is stamped;</li><li>the queue holds exactly one join per newcomer not in cooldown at the start, named as the source names it.</li></ul> |
| SyncSteps.ApplyLeaves | src/bot/domain/services/synchronization_service.py:112-126 | After the leave loop, exactly the departed users' pairs are removed and nothing else changes. Every departed pair is stamped. The queue holds exactly one leave per departed user not in cooldown, named by stored username or raw id. |
| SyncSteps.SyncEvent | src/bot/domain/services/synchronization_service.py:80-126 | One event: its stored participants become exactly its remote participants, and no other event's participations change. Cooldown and queue are as the two loops promise, judged on the state before the event. |
| SyncSteps.JoinsThenLeaves | src/bot/domain/services/synchronization_service.py:84-126 | The join loop followed by the leave loop leaves the event mirrored and the other events untouched. |
| SyncPass.CreateIfMissing | src/bot/domain/services/synchronization_service.py:69-77 | An event not stored before the loop is created, not passed, with its remote name. Stored events, users and participations are unchanged. |
| SyncPass.CreateMissingEvents | src/bot/domain/services/synchronization_service.py:66-77 | After step 1 the stored events are the old ones (unchanged) plus every listed event. The new ones carry their remote name and are not passed. |
| SyncPass.PassStep | src/bot/domain/services/synchronization_service.py:79-126 | One iteration of step 2 keeps the whole pass invariant. The invariant covers participations, users, the cooldown table and a queue equal to what `Owed` prescribes for the events handled so far. |
| SyncPass.EventQueue | src/bot/domain/services/synchronization_service.py:90-126 | One event's joins and leaves are exactly the entries `Owed` prescribes for it, each (event, user) pair once, with stored users named as stored. They are judged on the store and cooldown table as they were before the pass. |
| SyncPass.SyncParticipations | src/bot/domain/services/synchronization_service.py:79-126 | After step 2:<ul><li>every listed event's participants are its roster, and unlisted events are untouched;</li><li>the roster newcomers are users;</li><li>every changed pair is stamped;</li><li>the queue is exactly the owed entries.</li></ul> |
| SyncPass.MirroredAfterStep2 | src/bot/domain/services/synchronization_service.py:79-126 | A participation is stored after step 2 if and only if it is on its listed event's roster, or belongs to an unlisted event and was stored before. |
| SyncPass.PassComposes | src/bot/domain/services/synchronization_service.py:65-135 | Steps 1, 2 and 3 together yield `PassCommitted`. |
| SyncPass.SyncGuild | src/bot/domain/services/synchronization_service.py:48-144 | <ul><li>A failed commit leaves the store as it was and sends nothing.</li><li>Otherwise the store is `PassCommitted`: events = old + listed; users = the effective members; a participation is kept if and only if it is mirrored and its user survived the member sync.</li><li>The cooldown stamps exactly the changed pairs.</li><li>The queue is exactly the owed entries.</li><li>The header and messages are sent only when the commit succeeded, a channel was found and the queue is non-empty.</li></ul> |
| SyncPass.QueuedAllPublished | src/bot/domain/services/synchronization_service.py:353-383 | Every entry a pass queues is about a listed event, so publishing sends the header and then exactly one message per entry, in order. |
| SyncPass.SecondPassQuiet | src/bot/domain/services/synchronization_service.py:79-126 | After a committed pass in which every roster user is a guild member, no join or leave is owed any more, whatever the cooldown table says. |
| MemberSync.AddMembers | src/bot/domain/services/synchronization_service.py:342-344 | Every new member becomes a user named after its display name, and stored users are untouched. |
| MemberSync.RemoveMembers | src/bot/domain/services/synchronization_service.py:346-349 | Every stored non-member is deleted by primary key with its participations. Nothing else goes. |
| MemberSync.AddThenRemove | src/bot/domain/services/synchronization_service.py:333-349 | The two loops together give `MembersSynced`:<ul><li>users = members;</li><li>users who stay are unchanged, and newcomers carry their display name;</li><li>exactly the deleted users' participations are gone;</li><li>events are untouched.</li></ul> |
| MemberSync.SyncMembersTable | src/bot/domain/services/synchronization_service.py:305-351 | The member map is the fetched one, or the cached one when the fetch returned nobody. The store ends `MembersSynced` with it. The two counts are the sizes of the added and removed id sets. |
| MemberSync.MembersSyncIdempotent | src/bot/domain/services/synchronization_service.py:305-351 | A second member sync against the same member list changes no user, participation or event. |
| Handlers.AddWrites | src/bot/domain/services/synchronization_service.py:231-234 | The handler's writes add exactly the pair and, for an unknown user, a user with the given name, and leave stored users and events alone. |
| Handlers.HandleUserAdd | src/bot/domain/services/synchronization_service.py:204-257 | <ul><li>A pair in cooldown or already registered changes nothing and sends nothing.</li><li>A failed explicit commit changes nothing.</li><li>Otherwise exactly the pair (and, for an unknown user, the user with its display name) becomes durable. If the exit commit succeeds, the pair is recorded and, with a channel, the header and the join message are sent.</li></ul> |
| Handlers.HandleUserRemove | src/bot/domain/services/synchronization_service.py:259-303 | <ul><li>A pair in cooldown or not registered changes nothing and sends nothing.</li><li>A failed commit changes nothing.</li><li>Otherwise exactly the pair is removed and recorded, and with a channel the header and the leave message (stored username or raw id) are sent.</li></ul> |
| Handlers.AddIdempotent | src/bot/domain/services/synchronization_service.py:226-229 | Once a subscription was handled, delivering it again, at any time and whatever the driver does, changes nothing and sends nothing. |
| Handlers.RemoveIdempotent | src/bot/domain/services/synchronization_service.py:282-283 | Once an unsubscription was handled, delivering it again changes nothing and sends nothing. |
| Handlers.AddThenRemoveRestores | src/bot/domain/services/synchronization_service.py:204-303 | A subscription followed, after the cooldown, by the matching unsubscription restores the participations and sends the leave message. |
| Handlers.RemoveWithinCooldownIgnored | src/bot/domain/services/synchronization_service.py:269-275 | An unsubscription within the window after a subscription is ignored: the participation stays and nothing is sent. |
| EventLogger.Init | src/cogs/eventlogger.py:14-16 | After `__init__` a document is stored, an existing one is kept, and a load returns exactly what it returned before. |
| EventLogger.Save | src/cogs/eventlogger.py:19-25 | Saving onto a stored document makes the next load return the saved one. Without a stored document nothing is written, and a load still returns the empty document. |
| EventLogger.InitThenLoadSave | src/cogs/eventlogger.py:14-25 | After `__init__`, a load returns what was stored (or the empty document) and a save takes effect. |
| EventLogger.AddNew | src/cogs/eventlogger.py:72-79 | Subscribers become old + fetched ids, and existing entries are kept. A newcomer gets its display name at first occurrence, with the current time. |
| EventLogger.KeepOnly | src/cogs/eventlogger.py:82-88 | Exactly the entries whose id is still fetched remain, unchanged. |
| EventLogger.HandledShape | src/cogs/eventlogger.py:59-90 | After handling an event, its subscribers are exactly the fetched ids. Entries already there are kept, and newcomers are stamped with `now`. |
| EventLogger.HandledTwice | src/cogs/eventlogger.py:59-90 | Handling an event twice with the same roster is handling it once. |
| EventLogger.ExpectedCons | src/cogs/eventlogger.py:58-90 | Handling one event and then a set of others is handling the set with that event added. |
| EventLogger.SyncAllEventsExpected | src/cogs/eventlogger.py:58-90 | The loop over the fetched events equals `Expected`: listed events handled once from the loaded document, others as loaded. |
| EventLogger.Archive | src/cogs/eventlogger.py:92-97 | Exactly the unlisted events move, with their subscribers, to the passed events, replacing a same-id entry. The other passed events stay. |
| EventLogger.ArchiveNothing | src/cogs/eventlogger.py:92-97 | With every event listed, archiving changes nothing. |
| EventLogger.BotReadyCheck | src/cogs/eventlogger.py:36-100 | The store is untouched when the guild is missing, when the event fetch raises, or when iterating any listed event's `users()` raises, because that loop is not guarded. Without a stored document nothing is written. |
| EventLogger.BotReadyCheckEffect | src/cogs/eventlogger.py:53-100 | The saved document holds exactly the listed events, each with exactly its fetched subscribers (old entries kept, newcomers stamped). Every other event has moved to the passed events, and the other passed entries stay. |
| EventLogger.CheckedShape | src/cogs/eventlogger.py:53-100 | After a check the active events are exactly the listed ones, each with exactly its fetched subscriber ids. |
| EventLogger.PassedNeverRestored | src/cogs/eventlogger.py:53-100 | The active events a check saves do not depend on what the passed events held: nothing is copied back. |
| EventLogger.BotReadyCheckIdempotent | src/cogs/eventlogger.py:53-100 | A second check against the same guild state, at any later time, changes nothing. |
| Text.LJust | src/bot/domain/utils/create_text_table.py:18-24 | `ljust` pads with spaces up to the width and never cuts. |
| Text.StripIdempotent | src/bot/core/utils.py:65 | Stripping twice is stripping once. |
| TextTable.LongestCell | src/bot/domain/utils/create_text_table.py:9-12 | At least every row's rendered value length, and equal to one of them (0 without rows). |
| TextTable.KeyWidth | src/bot/domain/utils/create_text_table.py:7-15 | The column width is the larger of the key length and the longest value, plus 2. |
| TextTable.SeparatorCells | src/bot/domain/utils/create_text_table.py:19 | Each separator cell is exactly its width in dashes. |
| TextTable.DataCellsPadded | src/bot/domain/utils/create_text_table.py:7-24 | Every data cell is exactly its column's width: the value followed only by spaces, at least two of them. |
| TextTable.BodyAligned | src/bot/domain/utils/create_text_table.py:7-25 | The separator line and every data line have the same length. |
| TextTable.LongTitleMisaligned | src/bot/domain/utils/create_text_table.py:7-18 | For a title longer than its key and values, the header line is longer than the separator (10 against 4). |
| TextTable.TitledAligned | src/bot/domain/utils/create_text_table.py:7-25 | With widths that also count the titles, every line, header included, has the same length. |
| TextTable.LinesSingle | src/bot/domain/utils/create_text_table.py:17-25 | Titles and values without line breaks give lines without line breaks. |
| TextTable.TableLineCount | src/bot/domain/utils/create_text_table.py:17-27 | For single-line content with a visible first title and a non-blank last line, the stripped table has `len(rows) + 1` line breaks: one line each for the header, the separator and every row. |
| TextTable.SeparatorVisible | src/bot/domain/utils/create_text_table.py:19-27 | With a column, the separator line is never blank. |
| Utils.ParseShowInt | src/bot/core/utils.py:45-46 | `int(str(i)) == i` for every integer of at most 4300 digits. Past that limit `int()` raises. |
| Utils.SafeInt | src/bot/core/utils.py:39-48 | `None` gives `None`. A blank string gives `None`. An int comes back as itself and a bool as 0 or 1. Any other string is parsed as `int()` parses it: `int()` skips less surrounding whitespace than `strip` and rejects literals of more than 4300 digits, and gives `None` when it raises. |
| Utils.SafeIntRejectsLeadingSeparator | src/bot/core/utils.py:42-48 | Text starting with one of the separators U+001C to U+001F gives `None`, for example `safe_int("\x1c5")`. `strip` does not count such text as blank, but `int()` does not skip the separator and raises. |
| Utils.SafeStr | src/bot/core/utils.py:61-67 | `None` exactly for `None` and for an integer of more than 4300 digits, whose `str()` raises. The result never starts or ends with whitespace. A string gives its strip, a boolean gives `"True"` or `"False"`, and an integer within the limit gives its decimal text. |
| Utils.SafeStrIdempotent | src/bot/core/utils.py:61-67 | Feeding `safe_str`'s result back gives the same result. |
| Utils.SafeIntOfSafeStr | src/bot/core/utils.py:29-67 | `safe_int(safe_str(i)) == i` for every integer of at most 4300 digits. |
| Utils.WordListsDisjoint | src/bot/core/utils.py:88-91 | No word is on both lists. |
| Utils.SafeBool | src/bot/core/utils.py:80-96 | <ul><li>`None` stays `None` and a bool passes through.</li><li>An int gives whether it is non-zero.</li><li>A string whose lowered, stripped text is a true word gives true, and one that is a false word gives false.</li><li>Any other string gives a value exactly when that text is an integer literal, and the value is whether that integer is non-zero, as `bool(int(value))`.</li></ul> |
| Utils.SafeBoolStringDefined | src/bot/core/utils.py:86-96 | On a string the result is defined if and only if the cleaned text is one of the eight words or an integer literal `int()` accepts, within the 4300-digit limit. |
| Utils.SafeBoolOfShownBool | src/bot/core/utils.py:80-96 | `safe_bool(str(b)) == b`. |
| Utils.SafeBoolOfSafeStr | src/bot/core/utils.py:61-96 | `safe_bool(safe_str(b)) == b`: a boolean survives both conversions. |
| Utils.SafeBoolOfShownInt | src/bot/core/utils.py:86-96 | The decimal text of any integer other than 0 and 1 reads as true, and as `None` past 4300 digits. |
| Utils.PyPrefix | src/bot/core/utils.py:149 | Python's `s[:k]`: a prefix, of length `k` clamped to the text for `k >= 0`, and `len(s) + k` clamped at 0 for negative `k`. |
| Utils.TruncateFits | src/bot/core/utils.py:146-149 | With room for the suffix, over-long text is cut to exactly `max_length` characters: a prefix of the text, then the suffix. |
| Utils.TruncateNegativeSliceOverlong | src/bot/core/utils.py:149 | With `max_length` below the suffix length the result is longer than `max_length`: `"abcdef"`, 2 and `"..."` give `"abcde..."`. |
| Utils.TruncateStringBounded | src/bot/core/utils.py:134-149 | Never longer than `max_length` (or 0), and equal to `truncate_string` whenever `max_length` leaves room for the suffix. |

## Left out

- Discord I/O is replaced by inputs:
  - fetching scheduled events, rosters and members;
  - resolving the notification channel (`_resolve_notification_channel`), modelled as `channelOk`;
  - the guild lookup in the handlers.

  A roster or member fetch that fails part-way is the partial roster or map collected before the error, and an empty one when it fails at once. In the legacy cog a failing `users()` is a `None` roster.
- Sending messages is modelled as the list of texts sent or attempted. A failed send is logged and the next one is still tried, so failures do not change that list.
- The clock becomes an integer `now` in seconds. A pass uses one `now` for all of its cooldown checks; the source reads the clock at each check, milliseconds apart. Time zones are not modelled.
- The notification header (`_format_notification_header`) is an input, because it only formats the clock.
- `SUBSCRIPTION_COOLDOWN_SECONDS` is the `window` parameter. The configuration module is not part of this model.
- Logging, `created_at` and `updated_at` timestamps, and the asyncio interleaving of handlers with a pass are not modelled. Each call is modelled as atomic.
- Other exceptions inside the `sync_guild` `try` block are not modelled. The commit failure is the only one modelled.
- The game, deal and database-health repositories, and the generic `get_by_id`, `get_all`, `create` and `update` methods, are left out. The core does not call them. The games count of `get_stats` is 0 and its error branch is not modelled.
- `safe_float`, `format_currency` and `format_percentage` are left out, because they work on floating point.
- `_parse_date` and the `event_inscriptions` command of the legacy cog are left out: they only format output.
- The legacy document always has both the `events` and `passed_events` fields. A stored document lacking one of them is not modelled.
- The store does not check that a participation's user and event exist; foreign keys are not modelled.
- `int()` is modelled for base-10 literals:
  - ASCII digits, with single underscores between them;
  - an optional sign;
  - the surrounding whitespace `int()` itself skips.

  Non-ASCII digits, which `int()` also accepts, are not modelled.
- The digit limit is CPython's default of 4300 (`MaxStrDigits`). A process that changes it with `sys.set_int_max_str_digits` or `PYTHONINTMAXSTRDIGITS`, and Pythons older than the limit, are not modelled.
- `lower()` is modelled for ASCII letters only.
- SyncPass.SyncGuild: states the usernames of queued entries, and so of the texts sent, only for users stored before the pass. In the source, a join by a user the pass creates carries the roster display name from the first listed event that brings that user in. A leave by a user not stored carries the raw id, or the name an earlier event of the same pass created the user with. SyncSteps.ApplyJoins and SyncSteps.ApplyLeaves state these names for one event, but the pass-level statement does not carry them across events, because they depend on event order.
- SyncPass.SyncGuild: does not state the username of a member whose user was first created from an event roster during the same pass. That user is named after the roster display name.
- Handlers.HandleUserAdd: after the already-registered early return, the exit commit is modelled on an unchanged session, so it has no durable effect.

## Findings

| source | as written | input that shows it | evidently intended | confidence | as-written member | corrected member |
|---|---|---|---|---|---|---|
| src/bot/core/utils.py:149 | `text[:max_length - len(suffix)] + suffix` with `max_length < len(suffix)` slices from the end | `truncate_string("abcdef", 2, "...")` gives `"abcde..."` (8 characters) | the result is never longer than `max_length` | not executed | Utils.TruncateNegativeSliceOverlong | Utils.TruncateStringBounded |
| src/bot/domain/utils/create_text_table.py:7-18 | column widths come from the column KEYS and values, while the header shows the TITLES | one column `id` titled `Identifier` without rows: header 10 characters, separator 4 | widths that fit the titles, so the header lines up with the separator | not executed | TextTable.LongTitleMisaligned | TextTable.TitledAligned |
| src/bot/infrastructure/unit_of_work_impl.py:38-45 | `__exit__` calls `close()` after `commit()`, and `commit` re-raises on failure, so `close` never runs on that path | a `with` block whose commit raises | the session is closed on every path | not executed | UnitOfWork.ExitSkipsCloseOnCommitFailure | UnitOfWork.ExitClosing |

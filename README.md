# Offline persistence and sync of Stoic Trainer, in Dafny

This project models the offline core of the Stoic Trainer web app:

- the local store of `web/src/lib/storage.ts`: five keyed record stores
  (reflections, virtues, reframes, challenges, mood logs) and a `pending`
  queue of mutation intents ordered by timestamp, with save (an upsert
  keyed by the record's `id` that stamps the owner, a local id, `_synced =
  false` and a creation time), owner-filtered listing, lookup, delete,
  clear, mark-as-synced, the unsynced listing, enqueue, the ordered queue
  snapshot and dequeue;
- the autosave hook of `web/src/hooks/useAutosave.ts`: a debounce timer
  that commits only the latest edit once the quiet period has passed, and
  a commit that saves the record, enqueues an insert, marks the record
  synced and calls `onSave`, with `isSaving`, `saveStatus` and the
  `onError` callback;
- the sync hook of the same file: one best-effort replay of a snapshot of
  the queue against the remote backend, removing an operation only when
  its remote call succeeded, going on past failures, and reporting a
  progress percentage.

Modules, one per file:

| file | module | contents |
|---|---|---|
| `values.dfy` | `Values` | `Option`, `Result`, the JSON-like `Value`, objects as maps, JavaScript truthiness |
| `records.dfy` | `Records` | store names, the stored `Record` with its metadata, `PendingOp` |
| `storage.dfy` | `Storage` | class `LocalStore` (the IndexedDB database as fields) and the pure store updates |
| `debounce.dfy` | `Debounce` | the timer as a state machine over edit, tick and teardown events |
| `autosave.dfy` | `Autosave` | class `Autosaver` (the hook's state) and what one commit does |
| `sync.dfy` | `Sync` | class `Syncer` (the sync hook's state) and what one run does |

The database is an explicitly constructed `LocalStore` instead of a lazily
opened singleton. Time, `crypto.randomUUID()` and `new Date().toISOString()`
are parameters. The remote backend is a function `remote: PendingOp -> bool`
saying whether the call for an operation succeeds, and the identity
provider is a flag `authenticated` for the whole run. `setTimeout` becomes
a logical clock: an `Edit` event (the effect re-running), a `Tick(now)`
event, and a `Teardown` (unmount). A commit's failures are chosen by a
`CommitEnv`: the step whose storage call or `onSave` throws, if any.

In these places the code behaves differently from what one might expect,
and the model follows the code:

- An unauthenticated sync does not abort the run: the check sits inside
  the per-operation `try` (`useAutosave.ts:122-125`), so every operation
  fails on its own and the run goes on to progress 100.
- Records are keyed by their `id` field (`storage.ts:60-62`), not by the
  local id. A save without a valid `id` fails.
- `saveStatus` never returns to `'idle'` after the first commit.
- Progress is set to `(i + 1) / n * 100` after operation `i` only when it
  does not throw; an operation whose action the `switch` does not know
  also counts.
- Queue timestamps come from `Date.now()`, so two operations may share one.
- A record whose `id` is falsy (`""` or `0`) is stored under that key, but
  its `_local_id` is a fresh uuid. The autosave's mark step looks it up by
  `_local_id` and misses it, so that record stays unsynced
  (`Autosave.CommitStoresRecord`).

## Model

| member | source | states |
|---|---|---|
| Records.Owner | web/src/lib/storage.ts:130 | the owner is 'anonymous' exactly when the user is absent, empty or 'anonymous', and otherwise the given user |
| Records.WithMetadata | web/src/lib/storage.ts:128-134 | the saved object is `data` spread with `user_id`, `_local_id`, `_synced = false` and `_created_at` overriding it; every other field of `data` is kept; `_local_id` is `data.id` when truthy, else the fresh uuid |
| Storage.InsertByTime | web/src/lib/storage.ts:250-253 | inserting into a timestamp-ordered list keeps it ordered and adds exactly that operation |
| Storage.LocalStore.constructor | web/src/lib/storage.ts:52-103 | the opened database has five empty record stores and an empty queue |
| Storage.LocalStore.Save | web/src/lib/storage.ts:120-138 | succeeds exactly when `data.id` is a valid key; then it is an upsert of the stamped record, which is readable by id and listed for the same user; otherwise nothing changes; the queue is untouched |
| Storage.LocalStore.GetAll | web/src/lib/storage.ts:143-155 | the whole store for no, an empty or the 'anonymous' user; otherwise exactly the records owned by that user, unchanged |
| Storage.LocalStore.GetById | web/src/lib/storage.ts:160-166 | some record exactly when the key is present, and then the record stored under it |
| Storage.LocalStore.Delete | web/src/lib/storage.ts:171-177 | removes that key only; afterwards the lookup finds nothing; an absent key is no error |
| Storage.LocalStore.Clear | web/src/lib/storage.ts:182-196 | after emptying the six stores in order, every record store and the queue are empty |
| Storage.LocalStore.MarkAsSynced | web/src/lib/storage.ts:201-214 | sets `_synced` on the record under that key, if any; afterwards it is not in the unsynced listing |
| Storage.LocalStore.GetUnsynced | web/src/lib/storage.ts:219-225 | exactly the records of the store whose `_synced` is false, unchanged |
| Storage.LocalStore.AddToPendingQueue | web/src/lib/storage.ts:230-245 | the queue gains the operation under its fresh id, with its table, action, payload and timestamp; records are untouched |
| Storage.LocalStore.GetPendingSync | web/src/lib/storage.ts:250-253 | the snapshot is ordered by timestamp and holds every queued operation exactly once |
| Storage.LocalStore.RemoveFromPendingQueue | web/src/lib/storage.ts:258-261 | removes that operation only; an absent id is no error |
| Storage.PutIsUpsert | web/src/lib/storage.ts:136 | saving twice under one `id` leaves only the second record; other keys and stores are untouched |
| Storage.RemovedIsIdempotent | web/src/lib/storage.ts:171-177 | deleting twice is deleting once; deleting an absent key changes nothing; other stores are untouched |
| Storage.MarkedChangesOnlyTheFlag | web/src/lib/storage.ts:206-213 | marking changes only the `_synced` flag of that one record and is idempotent |
| Storage.MarkedKeepsStoresValid | web/src/lib/storage.ts:206-213 | marking keeps every record under its own `id` |
| Storage.SnapshotIdsDistinct | web/src/lib/storage.ts:95-98 | a snapshot of the queue holds each queued operation once, so no two entries share an id |
| Debounce.PendingIsLatestEdit | web/src/hooks/useAutosave.ts:36-47 | a pending commit carries the data of the latest scheduling edit, followed only by ticks before it was due |
| Debounce.QuietEditIsPending | web/src/hooks/useAutosave.ts:41-47 | an edit followed only by early ticks leaves exactly its commit pending |
| Debounce.CommitIsLatestEdit | web/src/hooks/useAutosave.ts:36-83 | an event commits `d` exactly when it is a tick at or after the due time of the latest edit, whose data is `d`, with only earlier ticks in between |
| Debounce.CommitsAreSeparatedByEdits | web/src/hooks/useAutosave.ts:41-47 | between two commits there is a new scheduling edit: no edit commits twice |
| Debounce.TeardownCancels | web/src/hooks/useAutosave.ts:77-82 | after unmount nothing is pending and later ticks commit nothing |
| Debounce.TicksAfterNothingCommit | web/src/hooks/useAutosave.ts:36-39 | with nothing pending, ticks neither commit nor schedule |
| Debounce.DebounceExample | web/src/hooks/useAutosave.ts:36-83 | edits at 0, 200 and 900 with a 1000 ms delay commit only the third, once, at the tick at 1900 |
| Autosave.Autosaver.constructor | web/src/hooks/useAutosave.ts:23-34 | the hook starts with no timer, not saving, status 'idle' and no callbacks |
| Autosave.Autosaver.Edit | web/src/hooks/useAutosave.ts:36-47 | the old timer is cancelled; a new one, due after the delay and holding the data, exists exactly when enabled and given data |
| Autosave.Autosaver.Teardown | web/src/hooks/useAutosave.ts:77-82 | unmounting cancels the timer |
| Autosave.Autosaver.Tick | web/src/hooks/useAutosave.ts:47-75 | a due timer fires once and commits its data; otherwise nothing changes |
| Autosave.Autosaver.Commit | web/src/hooks/useAutosave.ts:48-74 | status goes 'saving' then 'saved' or 'error'; `isSaving` ends false either way; `onSave` gets the saved object when all three storage steps succeed; `onError` is called once on failure; the stores and queue are as the steps that ran leave them |
| Autosave.Autosaver.SaveQueueAndMark | web/src/hooks/useAutosave.ts:52-59 | saves into reflections with no user, enqueues an insert of the saved object, marks by `_local_id`; the first failing step stops the rest |
| Autosave.CommitStoresRecord | web/src/hooks/useAutosave.ts:53-59 | after a successful commit the record is under its `id` with the caller's fields, owned by 'anonymous', and synced exactly when its `id` is truthy |
| Autosave.QueuedInsertIsUnsynced | web/src/hooks/useAutosave.ts:53-56 | the queued insert targets 'reflections', carries the caller's fields, owner 'anonymous' and `_synced = false` |
| Autosave.FailedCommitSkipsLaterSteps | web/src/hooks/useAutosave.ts:48-74 | a failed save writes nothing; a failed enqueue queues nothing; a failure before the mark leaves the record unsynced |
| Sync.Syncer.constructor | web/src/hooks/useAutosave.ts:95-96 | not syncing, progress 0 |
| Sync.Syncer.Sync | web/src/hooks/useAutosave.ts:98-181 | the run replays a timestamp-ordered snapshot of the queue, sends one call per known action when signed in, removes exactly the confirmed operations, leaves the records alone, records every value `syncProgress` takes (0, the per-operation updates, 100), and ends with `syncProgress` 100 and not syncing |
| Sync.Syncer.ReplayAll | web/src/hooks/useAutosave.ts:115-172 | the loop sends the calls of the snapshot in order, removes the confirmed ids, appends `(i + 1) / n * 100` to the progress trace after each operation that does not throw, and leaves `syncProgress` equal to the last value recorded |
| Sync.Replay | web/src/hooks/useAutosave.ts:116-171 | one operation: nothing is sent without a user; insert, update or delete is sent by action, selecting by the payload's `id`; the operation is removed exactly when its call succeeds |
| Sync.PercentBounds | web/src/hooks/useAutosave.ts:167 | each progress value lies in (0, 100], and is 100 after the last operation |
| Sync.ProgressUpdatesIncrease | web/src/hooks/useAutosave.ts:115-172 | the progress values set by the loop strictly increase |
| Sync.ProgressNeverDecreases | web/src/hooks/useAutosave.ts:98-181 | progress starts at 0, ends at 100 and never decreases during a run |
| Sync.UnauthenticatedRunChangesNothing | web/src/hooks/useAutosave.ts:122-125 | without a user no call is sent, nothing is removed, and progress goes only from 0 to 100 |
| Sync.ConfirmedIds | web/src/hooks/useAutosave.ts:127-165 | an id is removed exactly when some operation with that id was confirmed by the backend |
| Sync.RemovedIffConfirmed | web/src/hooks/useAutosave.ts:127-165 | with distinct ids, an operation is removed exactly when its own call succeeded |
| Sync.SyncKeepsExactlyUnconfirmed | web/src/hooks/useAutosave.ts:107-172 | after a run, a queued operation is still queued exactly when its call did not succeed |
| Sync.CallsFollowSnapshotOrder | web/src/hooks/useAutosave.ts:115-165 | signed in with known actions, the run sends one call per operation, in timestamp order |
| Sync.PartialFailureExample | web/src/hooks/useAutosave.ts:115-174 | of three operations the backend refuses the second: only it stays queued; progress reads 0, 100/3, 100, 100 |

## Left out

- Storage.LocalStore.GetPendingSync: operations with the same timestamp may come in any order; IndexedDB orders them by id, which is not modelled.
- Storage.LocalStore: storage-engine failures (quota, an aborted transaction, a closed database) are not modelled; only a save without a valid `id` fails (`DataError`), and every other method always succeeds. So a `clearLocalStorage` that fails part-way, with the earlier stores emptied and the rest kept, cannot be expressed.
- Storage.LocalStore.GetById: a lookup, delete or mark with a value that is not a valid key (a boolean or null) misses instead of throwing `DataError`; the same holds for `Delete` and `MarkAsSynced`.
- Storage.LocalStore.GetAll: returns the records as a map keyed by `id`, not as an array in key order.
- Storage.LocalStore.constructor: opening the database, the schema upgrade, the `by-user-id` and `by-date` indexes and the `getDB` singleton are replaced by one constructed object; the indexes are never queried by the core.
- `isIndexedDBSupported` is a browser feature test with no state; it is not part of this model.
- Values are strings, integers, booleans and null; nested objects, arrays and non-integer numbers are not modelled.
- Autosave.Autosaver.Edit: `data` is an object or absent; falsy primitive data (`0`, `""`, `false`) is not modelled. The defaults (a 1000 ms delay, `enabled = true`) are not modelled; the caller always gives both.
- Autosave.Autosaver.Commit: `onSave` is awaited and `console.error` logs; neither is modelled beyond the callback record and the failing step.
- Sync.Syncer.Sync: a failure of `removeFromPendingQueue` is not modelled. In the code it is caught by the per-operation `catch`, so that operation gets no progress update and, although the backend already applied it, stays queued and is sent again on the next run; in the model removal always succeeds.
- Sync.Syncer.Sync: a failure of `getPendingSync` (the outer `catch` that rethrows) is not modelled.
- Sync.Syncer.Sync: the signed-in user is one flag for the whole run, while the code asks for the user again before each operation; a session lost in the middle of a run, where only the later operations fail, cannot be expressed. The backend's answer for an operation is likewise fixed for the run.
- Autosave.Autosaver.Edit: whether `onSave` and `onError` are given is fixed when the hook is constructed, while the code reads both callbacks again on every effect run (they are effect dependencies); a callback added or removed between edits is not modelled.
- Sync.Percent: progress is an exact rational, not a floating-point number.
- Concurrency: the async steps are modelled as running without interleaving; an edit or an enqueue during a commit or a sync run is not modelled.
- The Supabase client (`web/src/lib/supabase.ts`) and the React state machinery are not part of this model; they are replaced by the `remote` function, the `authenticated` flag and class fields.

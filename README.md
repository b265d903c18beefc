# Note sync manager and note metadata, modelled in Dafny

This project models two pieces of the AZTEC browser extension.

**`SyncManager`** keeps an account's notes in step with the chain. It tracks
one record per Ethereum address:
- whether a sync is running;
- the handle of the pending poll timer;
- the last synced block;
- the network;
- an optional paused snapshot.

`syncNotes` runs one cycle:
1. It cancels the address's pending timer and marks the address busy.
2. It asks for the logs from the block after the last synced one, up to
   `blocksPerRequest` blocks further but not past the head block.
3. It acts on the answer:
   - notes came back: the cycle advances the block and calls the progress
     subscriber;
   - the Infura "more than 10000 results" error (code -32005): it halves
     `blocksPerRequest`;
   - any other error: it pauses everything, in a development build only.
4. It then either starts the next cycle at once or arms a timer for the next
   poll. It starts at once when the head is more than `precisionDelta`
   blocks past the start of the range, or after a rate-limit error.

`pause` and `resume` park and restart one address. A process-wide `paused`
flag turns every later cycle into a pause.

**The note metadata `constructor`** cuts a metadata hex string into named
fields. It walks an ordered field list. Each field's length is either a
literal or the hexadecimal value of a field read before it. The
`addresses` and `viewingKeys` payloads are then cut into fixed-width lists.
The returned record has an `addAccess` operation, which appends, in place,
a grant for every new address that has none.

Layout:
- `notes_sync.dfy` (module `NotesSync`): the manager as a state machine
  over values, with the properties proved about it.
  - `Cycle` is one call of `syncNotes`, up to its recursive call or its
    timer.
  - `Drive` chains cycles the way the recursion does.
  - Timers are a map from handle to the options their callback re-runs the
    cycle with.
  - The calls to the progress subscriber are an append-only log.
- `notes_sync_manager.dfy` (module `NotesSyncManager`): class
  `SyncManager`.
  - `config`, `addresses`, `paused` and `progressSubscriber` are the
    source's fields.
  - `notifications`, `timers` and `nextTimer` are not fields of the source
    class. They stand in for the environment: the calls made to the
    progress subscriber, the timers `setTimeout` holds, and the next
    handle it returns.
  - Its methods update these fields step by step, and each method is proved
    to land exactly on the state the value model gives.
- `metadata_fields.dfy` (module `MetadataFields`): the field walk.
  - `Walk` is its specification.
  - `ParseFields` is the loop, proved equal to it.
- `metadata_access.dfy` (module `MetadataAccess`):
  - the chunking loop, `SplitAccounts`;
  - `Grants`, the specification of `addAccess`;
  - class `Metadata`, whose `AddAccess` appends to its lists in place.
- `wrappers.dfy`: `Option`.

The environment is passed in as parameters. For the sync manager, one
`Round` per cycle gives:
- the head block reported by the asset sync manager;
- what `fetchNotes` resolved to;
- which awaited call, if any, rejects: the asset lookup `syncedAssets`, the
  log fetch `fetchNotes`, or the saving of the notes. A rejection counts
  only when the cycle reaches that call (`NotesSync.Rejects`).

A boolean says whether the build is a development build.

Notes on behaviour that follow the code:
- The gap test `currentBlock - fromBlock > precisionDelta` is measured from
  the start of the range just fetched, not from its end. So a backfill
  makes one more eager cycle than "more than `precisionDelta` blocks
  behind" suggests. From block 100 with the head at 200, 50 blocks per
  request and delta 10, the cycles fetch [101, 151], then [152, 200], and a
  third cycle finds nothing to fetch and arms the timer
  (`NotesSync.BackfillScenario`).
- When a cycle continues at once, it writes back the record it read at its
  start, with only the block changed. So the record can keep a `syncReq`
  handle whose timer was just cancelled. The invariant proved is therefore
  one-way: every pending timer is named by its address's record
  (`NotesSync.Valid`). Not every handle in a record is pending. Every
  handle in a record was handed out already, though, and when it is still
  pending it is that address's own timer. So cancelling it never stops
  another address's polling, and a cycle touches no other address's record
  or timer (`NotesSync.CycleFrame`, `NotesSync.DriveFrame`).
- `syncNotes` has no `try`. When one of its awaited calls rejects, the
  cycle ends right after marking the address busy. The record stays
  `syncing` with no timer, so `isInQueue` stays true, and nothing polls
  the address again until `sync` or `resume` runs a new cycle for it
  (`NotesSync.CycleOnRejection`).
- A failed fetch in a production build does not stop the chain. When the
  head is far enough ahead, the same range is asked for again at once
  (`NotesSync.FailedFetchRetriesAtOnce`).
- Pausing does not cancel the timer. A timer that fires on a paused address
  only expires (`NotesSync.TimerOfPausedAddressOnlyExpires`).

## Model

| member | source | states |
|---|---|---|
| NotesSync.MergeConfig | packages/extension/src/background/services/EventService/helpers/NotesSyncManager/index.js:36-43 | each of the three known keys takes the patch's value when it is defined and keeps the old value otherwise |
| NotesSync.Pause | packages/extension/src/background/services/EventService/helpers/NotesSyncManager/index.js:59-70 | an untracked address leaves the state unchanged; a tracked one gets the snapshot and nothing else changes |
| NotesSync.SyncEntry | packages/extension/src/background/services/EventService/helpers/NotesSyncManager/index.js:239-248 | afterwards the address is tracked; an existing record is kept; a new one is idle, with no timer and the given block and network |
| NotesSync.SyncProgress | packages/extension/src/background/services/EventService/helpers/NotesSyncManager/index.js:72-89 | null exactly for an untracked address, otherwise the head block and the record's last synced block |
| NotesSync.Window | packages/extension/src/background/services/EventService/helpers/NotesSyncManager/index.js:162-167 | a range exists exactly when the head is past the last synced block; it starts at the next block, ends no later than the head, spans at most blocksPerRequest blocks, and ends at the head or at the full span |
| NotesSync.Classify | packages/extension/src/background/services/EventService/helpers/NotesSyncManager/index.js:180-203 | notes win; the rate-limit branch is taken exactly when there are no notes and the error code is -32005 |
| NotesSync.InQueue | packages/extension/src/background/services/EventService/helpers/NotesSyncManager/index.js:45-50 | an address is in the queue when it is tracked and either syncing or holding a timer handle; what keeps or puts it there is stated by ScheduledAddressIsInQueue, NewEntryIsNotInQueue and CycleOnRejection |
| NotesSync.MarkSyncing | packages/extension/src/background/services/EventService/helpers/NotesSyncManager/index.js:137-149 | the tracked addresses are kept, the address is busy, in the queue and holds no handle, its block and snapshot are kept, and only the records and timers change; MarkSyncingKeepsValid adds that only its own timer is cancelled |
| NotesSync.HandleOutcome | packages/extension/src/background/services/EventService/helpers/NotesSyncManager/index.js:180-203 | only the configuration, the subscriber log and the global flag can change, the configuration only on the rate limit, the flag only on another failure and the log only when notes came back |
| NotesSync.Schedule | packages/extension/src/background/services/EventService/helpers/NotesSyncManager/index.js:219-231 | the cycle ends without recursing and with the given range, the address is in the queue at the new block, a timer is armed under the next handle with the new block, the next handle moves up, and only records, timers and the handle counter change |
| NotesSync.Cycle | packages/extension/src/background/services/EventService/helpers/NotesSyncManager/index.js:121-232 | a cycle neither adds nor removes tracked addresses, and the cycle it starts is for the same address; its effect on the shared state is given in full by CycleSharedState, and on records and timers by the other Cycle* lemmas and CycleFrame, rejected awaits included |
| NotesSync.Drive | packages/extension/src/background/services/EventService/helpers/NotesSyncManager/index.js:205-216 | a chain of recursive cycles keeps the set of tracked addresses, and a pending cycle is for the same address |
| NotesSync.CycleOnPausedAddressIsNoOp | packages/extension/src/background/services/EventService/helpers/NotesSyncManager/index.js:128-131 | a cycle on an address with a paused snapshot changes nothing and fetches nothing |
| NotesSync.CycleWhileGloballyPaused | packages/extension/src/background/services/EventService/helpers/NotesSyncManager/index.js:132-135 | with the global flag set, a cycle only stores its own options as the snapshot, fetches nothing and does not continue |
| NotesSync.CycleFetchWindow | packages/extension/src/background/services/EventService/helpers/NotesSyncManager/index.js:162-178 | a cycle fetches exactly when it is not paused, the asset lookup resolved and the head is past the last synced block, and the range starts right after that block, stays at or below the head and spans at most blocksPerRequest |
| NotesSync.CycleAdvancesOnlyOnNotes | packages/extension/src/background/services/EventService/helpers/NotesSyncManager/index.js:180-194 | when no awaited call rejects, the last synced block moves to the end of the range exactly when notes came back and stays otherwise, never goes back, never passes the head, and the subscriber is called exactly then with the head and the new block |
| NotesSync.CycleOnRateLimit | packages/extension/src/background/services/EventService/helpers/NotesSyncManager/index.js:195-200 | when no awaited call rejects, the rate-limit error halves blocksPerRequest, keeps the rest of the configuration and the block, and continues at once with the same options |
| NotesSync.CycleOnFetchFailure | packages/extension/src/background/services/EventService/helpers/NotesSyncManager/index.js:201-203 | when no awaited call rejects, any other error keeps the configuration, the block and the subscriber log, and sets the global flag exactly in a development build |
| NotesSync.CycleContinuesOrSchedules | packages/extension/src/background/services/EventService/helpers/NotesSyncManager/index.js:205-231 | when no awaited call rejects, a fetching cycle continues exactly when the head is more than precisionDelta past the range start or on the rate limit; otherwise it arms one fresh timer with the new block and leaves the record idle with that timer; continuing writes back the snapshot with only the block changed |
| NotesSync.CycleOnRejection | packages/extension/src/background/services/EventService/helpers/NotesSyncManager/index.js:137-185 | a rejected await leaves the address busy with no timer of its own, in the queue, with every other part of the state unchanged, and starts no further cycle |
| NotesSync.CycleSharedState | packages/extension/src/background/services/EventService/helpers/NotesSyncManager/index.js:121-232 | after any cycle the configuration is the old one with blocksPerRequest halved exactly when a reached fetch hit the rate limit and unchanged otherwise; the global flag is set only by another reached failure in a development build; the subscriber never changes |
| NotesSync.FailedFetchRetriesAtOnce | packages/extension/src/background/services/EventService/helpers/NotesSyncManager/index.js:167 | in a production build a failed fetch far enough behind the head starts the next cycle at once with unchanged options and without pausing |
| NotesSync.RateLimitRetriesSameBlock | packages/extension/src/background/services/EventService/helpers/NotesSyncManager/index.js:195-214 | after a rate-limited cycle the next one starts from the same block with a range at most half as long, and unless it too hits the rate limit, blocksPerRequest ends exactly halved once |
| NotesSync.Sync | packages/extension/src/background/services/EventService/helpers/NotesSyncManager/index.js:234-254 | sync tracks the address from then on and keeps every other tracked address; a pending cycle is for that address; what it does is stated by SyncPreservesValid, SyncOnPausedAddressIsNoOp and NewEntryIsNotInQueue |
| NotesSync.Resume | packages/extension/src/background/services/EventService/helpers/NotesSyncManager/index.js:95-119 | resume keeps the tracked addresses, and a pending cycle is for the resumed address; what it does is stated by ResumeRestartsFromSnapshot and ResumePreservesValid |
| NotesSync.TimerFired | packages/extension/src/background/services/EventService/helpers/NotesSyncManager/index.js:219-224 | a timer keeps the tracked addresses; a cancelled one leaves no pending cycle, and a pending cycle is for the address the timer was armed for; see TimerFiredPreservesValid and TimerOfPausedAddressOnlyExpires |
| NotesSync.InitialIsValid | packages/extension/src/background/services/EventService/helpers/NotesSyncManager/index.js:25-34 | the initial manager satisfies the timer invariant |
| NotesSync.OneTimerPerAddress | packages/extension/src/background/services/EventService/helpers/NotesSyncManager/index.js:147-149 | under the invariant no address has two pending timers, so cancelling an address's handle cancels only its own timer |
| NotesSync.MarkSyncingKeepsValid | packages/extension/src/background/services/EventService/helpers/NotesSyncManager/index.js:137-149 | marking an address busy cancels only its own timer and keeps the invariant, with no timer left for that address |
| NotesSync.CyclePreservesValid | packages/extension/src/background/services/EventService/helpers/NotesSyncManager/index.js:137-231 | every cycle keeps the timer invariant |
| NotesSync.ScheduleTouchesOnlyItsAddress | packages/extension/src/background/services/EventService/helpers/NotesSyncManager/index.js:219-231 | arming a timer for an address leaves every other record and every other pending timer as they were |
| NotesSync.CycleFrame | packages/extension/src/background/services/EventService/helpers/NotesSyncManager/index.js:121-232 | a cycle leaves every other address's record, and every pending timer of another address with its options, as they were |
| NotesSync.DrivePreservesValid | packages/extension/src/background/services/EventService/helpers/NotesSyncManager/index.js:211-214 | every chain of cycles keeps the timer invariant |
| NotesSync.SyncPreservesValid | packages/extension/src/background/services/EventService/helpers/NotesSyncManager/index.js:234-254 | sync keeps the timer invariant |
| NotesSync.PausePreservesValid | packages/extension/src/background/services/EventService/helpers/NotesSyncManager/index.js:59-70 | pause keeps the timer invariant |
| NotesSync.ResumePreservesValid | packages/extension/src/background/services/EventService/helpers/NotesSyncManager/index.js:95-119 | resume keeps the timer invariant |
| NotesSync.TimerFiredPreservesValid | packages/extension/src/background/services/EventService/helpers/NotesSyncManager/index.js:219-224 | a timer callback keeps the timer invariant |
| NotesSync.DriveSplits | packages/extension/src/background/services/EventService/helpers/NotesSyncManager/index.js:211-214 | running out of answers and carrying on from the pending options gives the same result as having all the answers at once |
| NotesSync.DriveNeverRewinds | packages/extension/src/background/services/EventService/helpers/NotesSyncManager/index.js:162-214 | along a chain of cycles the pending options never start before the block the chain started from |
| NotesSync.DriveFrame | packages/extension/src/background/services/EventService/helpers/NotesSyncManager/index.js:205-216 | a chain of cycles for one address leaves every other address's record and pending timer as they were, so it can neither resume a paused address nor stop another address's polling |
| NotesSync.PausedAddressIsFrozen | packages/extension/src/background/services/EventService/helpers/NotesSyncManager/index.js:128-131 | a chain of cycles for a paused address changes nothing, whatever the environment answers |
| NotesSync.TimerOfPausedAddressOnlyExpires | packages/extension/src/background/services/EventService/helpers/NotesSyncManager/index.js:219-224 | after pause, the address's pending timer firing only removes that timer |
| NotesSync.ResumeRestartsFromSnapshot | packages/extension/src/background/services/EventService/helpers/NotesSyncManager/index.js:95-119 | resume does nothing on an untracked or running address; otherwise it clears the snapshot and runs the cycle with the snapshot's options for this address |
| NotesSync.SyncOnPausedAddressIsNoOp | packages/extension/src/background/services/EventService/helpers/NotesSyncManager/index.js:239-253 | sync on a paused address changes nothing |
| NotesSync.ScheduledAddressIsInQueue | packages/extension/src/background/services/EventService/helpers/NotesSyncManager/index.js:45-50 | a cycle that stops leaves its address in the queue, holding its new timer or, after a rejected await, still busy |
| NotesSync.NewEntryIsNotInQueue | packages/extension/src/background/services/EventService/helpers/NotesSyncManager/index.js:239-248 | a record sync has just created is not in the queue |
| NotesSync.BackfillScenario | packages/extension/src/background/services/EventService/helpers/NotesSyncManager/index.js:162-231 | from block 100 with the head at 200, 50 blocks per request and delta 10, the cycles fetch [101,151] and [152,200], then a third arms the timer at block 200 |
| NotesSyncManager.SyncManager.constructor | packages/extension/src/background/services/EventService/helpers/NotesSyncManager/index.js:25-34 | the default configuration (5000 ms, 540000 blocks, delta 10), no addresses, not paused, no subscriber, and the invariant holds |
| NotesSyncManager.SyncManager.SetConfig | packages/extension/src/background/services/EventService/helpers/NotesSyncManager/index.js:36-43 | only the configuration changes, to the merge of the old one with the patch; the invariant is kept |
| NotesSyncManager.SyncManager.IsInQueue | packages/extension/src/background/services/EventService/helpers/NotesSyncManager/index.js:45-50 | true exactly when the address is tracked and syncing or holds a timer handle |
| NotesSyncManager.SyncManager.HandleFetchError | packages/extension/src/background/services/EventService/helpers/NotesSyncManager/index.js:52-57 | only the global flag changes, and it is set exactly in a development build; the invariant is kept |
| NotesSyncManager.SyncManager.Pause | packages/extension/src/background/services/EventService/helpers/NotesSyncManager/index.js:59-70 | the new state is the value model's pause; the invariant is kept |
| NotesSyncManager.SyncManager.SyncProgress | packages/extension/src/background/services/EventService/helpers/NotesSyncManager/index.js:72-89 | returns the value model's progress without changing anything |
| NotesSyncManager.SyncManager.SetProgressCallback | packages/extension/src/background/services/EventService/helpers/NotesSyncManager/index.js:91-93 | only the subscriber changes |
| NotesSyncManager.SyncManager.MarkBusy | packages/extension/src/background/services/EventService/helpers/NotesSyncManager/index.js:137-149 | the record is marked syncing with no timer, and its pending timer is cancelled |
| NotesSyncManager.SyncManager.ApplyOutcome | packages/extension/src/background/services/EventService/helpers/NotesSyncManager/index.js:180-203 | the state changes as the value model's outcome handling says |
| NotesSyncManager.SyncManager.ArmTimer | packages/extension/src/background/services/EventService/helpers/NotesSyncManager/index.js:219-231 | a fresh timer is armed with the new block, and the record is written idle with that timer |
| NotesSyncManager.SyncManager.RunCycle | packages/extension/src/background/services/EventService/helpers/NotesSyncManager/index.js:121-232 | the new state, the range fetched and the recursive call's options are exactly those of NotesSync.Cycle, including the early end at each rejected await |
| NotesSyncManager.SyncManager.SyncNotes | packages/extension/src/background/services/EventService/helpers/NotesSyncManager/index.js:205-216 | the loop over recursive cycles ends in exactly the state and pending options of NotesSync.Drive, and keeps the invariant when it held |
| NotesSyncManager.SyncManager.Sync | packages/extension/src/background/services/EventService/helpers/NotesSyncManager/index.js:234-254 | ends exactly where NotesSync.Sync does and keeps the invariant |
| NotesSyncManager.SyncManager.Resume | packages/extension/src/background/services/EventService/helpers/NotesSyncManager/index.js:95-119 | ends exactly where NotesSync.Resume does and keeps the invariant |
| NotesSyncManager.SyncManager.TimerFired | packages/extension/src/background/services/EventService/helpers/NotesSyncManager/index.js:219-224 | ends exactly where NotesSync.TimerFired does and keeps the invariant |
| MetadataFields.Stored | packages/extension/src/utils/metadata/constructor.js:27-30 | array fields are stored verbatim, every other field as 0x followed by its slice |
| MetadataFields.Substr | packages/extension/src/utils/metadata/constructor.js:29 | the slice is at most len long and is exactly the len characters at start when they exist |
| MetadataFields.StartOffset | packages/extension/src/utils/metadata/constructor.js:17-19 | reading starts at 2 exactly when the string starts with 0x, otherwise at 0 |
| MetadataFields.HexPrefix | packages/extension/src/utils/metadata/constructor.js:26 | the count of leading hexadecimal digits is at most the length of the string; HexPrefixIsLongestRun shows it is the whole leading run |
| MetadataFields.ParseHex | packages/extension/src/utils/metadata/constructor.js:26 | parseInt with radix 16, with its NaN as None; ParseHexDefined states when it gives a number and StoredLengthIsHexValue that a stored length reads back as its value |
| MetadataFields.HexPrefixIsLongestRun | packages/extension/src/utils/metadata/constructor.js:26 | parseInt reads the whole leading run of hexadecimal digits and stops at the first other character |
| MetadataFields.ParseHexDefined | packages/extension/src/utils/metadata/constructor.js:26 | parseInt with radix 16 gives a number exactly when, after an optional 0x, the string starts with a hexadecimal digit |
| MetadataFields.StoredLengthIsHexValue | packages/extension/src/utils/metadata/constructor.js:24-30 | a field of plain hex digits, stored with or without 0x, gives as a length the value of those digits |
| MetadataFields.ResolveLength | packages/extension/src/utils/metadata/constructor.js:24-26 | a literal length is used as is; a named length resolves only when that field was read, and then to its parsed value |
| MetadataFields.ReadField | packages/extension/src/utils/metadata/constructor.js:24-31 | a field reads exactly when its length resolves, and the cursor never moves back |
| MetadataFields.Walk | packages/extension/src/utils/metadata/constructor.js:20-32 | the cursor after the walk is never before the start offset |
| MetadataFields.WalkPrefix | packages/extension/src/utils/metadata/constructor.js:20-32 | every prefix of a field list that walks also walks, to the same lengths and slices |
| MetadataFields.WalkCounts | packages/extension/src/utils/metadata/constructor.js:20-32 | one length and one slice per field |
| MetadataFields.WalkCursor | packages/extension/src/utils/metadata/constructor.js:31 | the cursor ends at the start offset plus the sum of all the lengths |
| MetadataFields.WalkSliceAt | packages/extension/src/utils/metadata/constructor.js:27-31 | field i is the slice at the start offset plus the lengths of the fields before it, field i's length long |
| MetadataFields.WalkCoversInput | packages/extension/src/utils/metadata/constructor.js:20-32 | the slices joined in order are exactly the part of the input the walk consumed |
| MetadataFields.WalkKeys | packages/extension/src/utils/metadata/constructor.js:27 | the walk stores an entry for exactly the names in the field list |
| MetadataFields.WalkStoredAt | packages/extension/src/utils/metadata/constructor.js:27-30 | a name's entry is the stored form of the slice of the last field with that name |
| MetadataFields.WalkLengths | packages/extension/src/utils/metadata/constructor.js:24-26 | field i's length is its literal, or the parsed value of a field read before it, as that field stood when field i was reached |
| MetadataFields.ParseFields | packages/extension/src/utils/metadata/constructor.js:16-32 | the loop ends with exactly the map and cursor of Walk |
| MetadataAccess.CeilDivBound | packages/extension/src/utils/metadata/constructor.js:40-41 | the loop index i runs exactly while i times the width is below the length, that is, up to the ceiling of the quotient |
| MetadataAccess.Chunk | packages/extension/src/utils/metadata/constructor.js:42-49 | an entry is at most one width long, and exactly one width when the string holds it |
| MetadataAccess.JoinChunksIsPrefix | packages/extension/src/utils/metadata/constructor.js:42-49 | the first n entries joined are the first n widths of the string |
| MetadataAccess.ChunksReassemble | packages/extension/src/utils/metadata/constructor.js:40-50 | the address entries joined give back the whole payload, and so do the viewing keys when their payload is exactly as long as the count asks |
| MetadataAccess.SplitAccounts | packages/extension/src/utils/metadata/constructor.js:38-50 | both lists have one entry per address chunk, and entry i is 0x followed by chunk i of its payload |
| MetadataAccess.FirstIndex | packages/extension/src/utils/metadata/constructor.js:63 | the position found holds the address, and no earlier position does |
| MetadataAccess.Grants | packages/extension/src/utils/metadata/constructor.js:62-67 | addAccess appends at most one grant per batch address to each list; the Grants* lemmas state which grants and in what order |
| MetadataAccess.GrantsOnlyAppend | packages/extension/src/utils/metadata/constructor.js:62-67 | existing grants are kept in place, and both lists grow by the same number of entries |
| MetadataAccess.GrantsCover | packages/extension/src/utils/metadata/constructor.js:62-67 | afterwards every earlier address and every address of the batch has a grant |
| MetadataAccess.GrantsAppendedAt | packages/extension/src/utils/metadata/constructor.js:62-67 | every appended grant is for a batch address that had none yet, and carries the viewing key at that address's first position in the batch |
| MetadataAccess.GrantsAppendInBatchOrder | packages/extension/src/utils/metadata/constructor.js:62-67 | appended grants follow the order in which their addresses first appear in the batch |
| MetadataAccess.GrantsKeepNoDuplicates | packages/extension/src/utils/metadata/constructor.js:63 | lists without a repeated address stay without one, even when the batch repeats an address |
| MetadataAccess.GrantsOfKnownAddressesIsNoOp | packages/extension/src/utils/metadata/constructor.js:63 | re-adding addresses that all have a grant changes nothing, viewing keys included |
| MetadataAccess.GrantsIdempotent | packages/extension/src/utils/metadata/constructor.js:56-68 | applying the same access twice is the same as applying it once |
| MetadataAccess.Metadata.constructor | packages/extension/src/utils/metadata/constructor.js:15-53 | the record holds the walked fields other than the two lists, and the two lists are the 0x-prefixed chunks of their payloads, one pair per address chunk |
| MetadataAccess.Metadata.AddAccess | packages/extension/src/utils/metadata/constructor.js:56-68 | the lists become exactly Grants of the old lists, in place; the other fields and the equal lengths of the lists are kept |

## Left out

- NotesSync.Cycle: halving `blocksPerRequest` on the rate-limit error is modelled as whole-number division. The source divides as a float, so an odd value becomes a fraction, and the range's end follows it.
- NotesSync.MergeConfig: the three settings are whole numbers. The source stores any value that is not `undefined`, including `null`, negative numbers and fractions, and later arithmetic uses it as it is.
- NotesSync.Pause: `prevState` is typed as the options of a cycle. The default `{}` and other shapes a caller could pass are not modelled.
- NotesSyncManager.SyncManager.Pause: as `NotesSync.Pause`.
- MetadataAccess.Metadata.AddAccess: requires at least as many viewing keys as addresses. When there are fewer, the source pushes `undefined`.
- MetadataAccess.Metadata.constructor: requires a field list that walks and defines both list fields, and a positive address width.
  - When a named length is missing or not hexadecimal, the source computes NaN. With a width of 0 and a non-empty address payload it loops forever; with an empty one it computes `0 / 0`, which is NaN, and the loop runs zero times.
  - `ADDRESS_LENGTH`, `VIEWING_KEY_LENGTH` and the field list `config` are parameters.
- MetadataFields.ParseHex: models `parseInt(v, 16)` on what the walk stores. Leading whitespace, a sign, and the precision loss of very large values are not modelled.
- MetadataFields.Substr: only the non-negative start and length the walk uses are modelled.
- Network and storage:
  - `fetchNotes`, `saveNotes`, `saveNotesAccess`, `syncedAssets`, the asset sync manager's head block and `Web3Service`'s `getBlockNumber` are not modelled as code. Their answers come in as parameters: `Round`, and the `blocks` of `SyncProgress`.
  - The note and access storage they write to is not modelled.
- The clock: `syncInterval` is kept in the configuration, but no time passes. A timer fires when `TimerFired` is called.
- `process.env.NODE_ENV` is the `devMode` parameter.
- Concurrency: each cycle is atomic. Interleavings of overlapping asynchronous calls (two `sync` calls for one address, a `pause` between a fetch and its result) are not modelled.
- The recursion of `syncNotes` is bounded by the finite list of environment answers. `Drive` returns the options of the cycle that would run next when the answers run out, and `DriveSplits` shows that resuming from there is the same as one longer run.
- Logging (`warnLog`, `errorLog`) is not modelled. It does not affect the state.
- `getAccess`, `toString` and `_addAccess` live in files that are not part of this model. `addAccess` takes the two lists `_addAccess` returns as its arguments.
- `NotesSync.DriveNeverRewinds` is relative to the options a chain starts with. A second `sync` call with an earlier block starts a chain from that earlier block, and the record follows it.

/**
 * The note sync manager as a state machine over values.
 *
 * `Manager` is the whole state of one `SyncManager`: the shared
 * configuration, the per-address records, the process-wide `paused` flag,
 * the progress subscriber, plus what the model makes explicit of the
 * environment: the timers armed with `setTimeout` (each with the options its
 * callback re-runs the cycle with) and the calls made to the progress
 * subscriber. `Cycle` is one call of `syncNotes` up to the point where it
 * either recurses or arms its timer; `Drive` chains cycles the way the
 * recursion does, one answer of the environment per cycle.
 */
module NotesSync {
  import opened Wrappers

  type Address = string

  /** The handle `setTimeout` returns. Handles are positive, so every
      handle a record holds is truthy, as the tests on `syncReq` expect. */
  type TimerId = t: nat | t >= 1 witness 1

  /** Which callback `setProgressCallback` registered. */
  type SubscriberId = nat

  /** The error code Infura returns when a log query matches more than
      10000 results. */
  const InfuraLimitErrorCode: int := -32005

  datatype Config = Config(syncInterval: nat, blocksPerRequest: nat, precisionDelta: nat)

  /** The configuration a new manager starts with: poll every 5000 ms, ask
      for 540000 blocks at a time, page eagerly while more than 10 blocks
      behind. */
  const DefaultConfig: Config := Config(5000, 540000, 10)

  /** The argument of `setConfig`: a value for each recognised key, or
      `None` where the argument leaves it undefined. Keys other than these
      three cannot be expressed, which is what ignoring them amounts to. */
  datatype ConfigPatch = ConfigPatch(syncInterval: Option<nat>, blocksPerRequest: Option<nat>, precisionDelta: Option<nat>)

  /** The options a cycle runs with. */
  datatype SyncOptions = SyncOptions(address: Address, lastSyncedBlock: int, networkId: nat)

  /** The per-address record. `pausedState` is `None` both where the source
      has no such key and where it holds `null`. */
  datatype SyncRecord = SyncRecord(
    syncing: bool,
    syncReq: Option<TimerId>,
    lastSyncedBlock: int,
    networkId: nat,
    pausedState: Option<SyncOptions>)

  /** One call of the progress subscriber: who was called, and with
      `{blocks, lastSyncedBlock}`. */
  datatype Progress = Progress(subscriber: SubscriberId, blocks: int, lastSyncedBlock: int)

  /** What `fetchNotes` resolved to: whether `groupedNotes` was present, and
      the code of `error` when there was an error carrying one. */
  datatype FetchResult = FetchResult(hasGroupedNotes: bool, errorCode: Option<int>)

  datatype Outcome = NotesFetched | RateLimited | FetchFailed

  /** The three calls a cycle awaits: the asset lookup, the log fetch and
      the saving of the fetched notes. */
  datatype Await = SyncedAssets | FetchNotes | SaveNotes

  /** What the environment answers during one cycle: the head block of the
      asset sync manager, the result of the log fetch, and the awaited call
      whose promise rejects, if any. A rejection is only seen when the cycle
      reaches that call (see `Rejects`). */
  datatype Round = Round(currentBlock: int, fetch: FetchResult, rejectedAt: Option<Await>)

  /** The block range passed to `fetchNotes`. */
  datatype BlockRange = BlockRange(fromBlock: int, toBlock: int)

  datatype Manager = Manager(
    config: Config,
    addresses: map<Address, SyncRecord>,
    paused: bool,
    progressSubscriber: Option<SubscriberId>,
    notifications: seq<Progress>,
    timers: map<TimerId, SyncOptions>,
    nextTimer: TimerId)

  /** The result of one cycle: the new state, the range it fetched, if any,
      and the options of the cycle it starts at once, if it recurses. */
  datatype Step = Step(after: Manager, fetched: Option<BlockRange>, next: Option<SyncOptions>)

  /** The result of a chain of cycles: the new state, and the options of the
      cycle that would start next when the environment ran out of answers
      before the chain ended. */
  datatype Run = Run(after: Manager, pending: Option<SyncOptions>)

  function Initial(): Manager
  {
    Manager(DefaultConfig, map[], false, None, [], map[], 1)
  }

  /** The state invariant: timer handles are fresh when armed, and every
      pending timer belongs to a tracked address whose record names it as
      its `syncReq`. So an address never has two timers pending. Every
      handle a record names was handed out already, and when it is still
      pending it is that address's own timer, so cancelling it never
      touches another address. */
  predicate Valid(m: Manager)
  {
    && (forall t :: t in m.timers ==> t < m.nextTimer)
    && (forall t :: t in m.timers ==>
          m.timers[t].address in m.addresses && m.addresses[m.timers[t].address].syncReq == Some(t))
    && (forall a :: a in m.addresses && m.addresses[a].syncReq.Some? ==>
          && m.addresses[a].syncReq.value < m.nextTimer
          && (m.addresses[a].syncReq.value in m.timers ==> m.timers[m.addresses[a].syncReq.value].address == a))
  }

  // ---------------------------------------------------------------------
  // Operations other than the cycle
  // ---------------------------------------------------------------------

  /** `setConfig`: each of the three keys is overwritten where the patch
      gives a value and kept otherwise. */
  function MergeConfig(c: Config, patch: ConfigPatch): (r: Config)
    ensures patch.syncInterval.Some? ==> r.syncInterval == patch.syncInterval.value
    ensures patch.syncInterval.None? ==> r.syncInterval == c.syncInterval
    ensures patch.blocksPerRequest.Some? ==> r.blocksPerRequest == patch.blocksPerRequest.value
    ensures patch.blocksPerRequest.None? ==> r.blocksPerRequest == c.blocksPerRequest
    ensures patch.precisionDelta.Some? ==> r.precisionDelta == patch.precisionDelta.value
    ensures patch.precisionDelta.None? ==> r.precisionDelta == c.precisionDelta
  {
    Config(
      if patch.syncInterval.Some? then patch.syncInterval.value else c.syncInterval,
      if patch.blocksPerRequest.Some? then patch.blocksPerRequest.value else c.blocksPerRequest,
      if patch.precisionDelta.Some? then patch.precisionDelta.value else c.precisionDelta)
  }

  /** `isInQueue`. */
  predicate InQueue(m: Manager, a: Address)
  {
    a in m.addresses && (m.addresses[a].syncing || m.addresses[a].syncReq.Some?)
  }

  /** `pause(address, prevState)`: records the snapshot on a tracked address
      and touches nothing else. */
  function Pause(m: Manager, a: Address, prevState: SyncOptions): (r: Manager)
    ensures a !in m.addresses ==> r == m
    ensures a in m.addresses ==>
      && r.addresses.Keys == m.addresses.Keys
      && r.addresses[a] == m.addresses[a].(pausedState := Some(prevState))
      && (forall b :: b in m.addresses && b != a ==> r.addresses[b] == m.addresses[b])
      && r == m.(addresses := r.addresses)
  {
    if a !in m.addresses then m
    else m.(addresses := m.addresses[a := m.addresses[a].(pausedState := Some(prevState))])
  }

  /** The record `sync` starts from: a new one with `syncing` false and no
      timer when the address is untracked, the existing one otherwise. */
  function SyncEntry(m: Manager, a: Address, lastSyncedBlock: int, networkId: nat): (r: Manager)
    ensures a in r.addresses
    ensures a in m.addresses ==> r == m
    ensures a !in m.addresses ==>
      && r.addresses == m.addresses[a := SyncRecord(false, None, lastSyncedBlock, networkId, None)]
      && r == m.(addresses := r.addresses)
  {
    if a in m.addresses then m
    else m.(addresses := m.addresses[a := SyncRecord(false, None, lastSyncedBlock, networkId, None)])
  }

  /** `syncProgress`, with the head block as a parameter: `None` for an
      untracked address. */
  function SyncProgress(m: Manager, a: Address, blocks: int): (r: Option<(int, int)>)
    ensures r.None? <==> a !in m.addresses
    ensures r.Some? ==> r.value == (blocks, m.addresses[a].lastSyncedBlock)
  {
    if a !in m.addresses then None else Some((blocks, m.addresses[a].lastSyncedBlock))
  }

  // ---------------------------------------------------------------------
  // One cycle
  // ---------------------------------------------------------------------

  /** The range a cycle fetches: nothing when the head is not past the last
      synced block, otherwise from the next block up to `blocksPerRequest`
      blocks further, but not past the head. */
  function Window(lastSyncedBlock: int, currentBlock: int, blocksPerRequest: nat): (w: Option<BlockRange>)
    ensures w.Some? <==> currentBlock > lastSyncedBlock
    ensures w.Some? ==>
      && w.value.fromBlock == lastSyncedBlock + 1
      && lastSyncedBlock < w.value.fromBlock <= w.value.toBlock <= currentBlock
      && w.value.toBlock <= w.value.fromBlock + blocksPerRequest
      && (w.value.toBlock == currentBlock || w.value.toBlock == w.value.fromBlock + blocksPerRequest)
  {
    if currentBlock > lastSyncedBlock then
      var fromBlock := lastSyncedBlock + 1;
      var toBlock := if fromBlock + blocksPerRequest <= currentBlock then fromBlock + blocksPerRequest else currentBlock;
      Some(BlockRange(fromBlock, toBlock))
    else None
  }

  /** How the cycle reads the fetch result: notes first, then the rate-limit
      code, then anything else. */
  function Classify(f: FetchResult): (o: Outcome)
    ensures o == NotesFetched <==> f.hasGroupedNotes
    ensures o == RateLimited <==> !f.hasGroupedNotes && f.errorCode == Some(InfuraLimitErrorCode)
  {
    if f.hasGroupedNotes then NotesFetched
    else if f.errorCode == Some(InfuraLimitErrorCode) then RateLimited
    else FetchFailed
  }

  /** The end of a cycle that does not recurse: arm a timer that will re-run
      the cycle from `newLastSyncedBlock`, and write the record, rebuilt from
      the snapshot `rec`, as idle with that timer. */
  function Schedule(m: Manager, rec: SyncRecord, o: SyncOptions, newLastSyncedBlock: int, fetched: Option<BlockRange>): (s: Step)
    ensures s.next.None? && s.fetched == fetched
    ensures InQueue(s.after, o.address) && s.after.addresses[o.address].lastSyncedBlock == newLastSyncedBlock
    ensures m.nextTimer in s.after.timers && s.after.timers[m.nextTimer].lastSyncedBlock == newLastSyncedBlock
    ensures s.after.nextTimer > m.nextTimer
    ensures s.after == m.(addresses := s.after.addresses, timers := s.after.timers, nextTimer := s.after.nextTimer)
  {
    var t := m.nextTimer;
    Step(
      m.(timers := m.timers[t := o.(lastSyncedBlock := newLastSyncedBlock)],
         nextTimer := t + 1,
         addresses := m.addresses[o.address := rec.(syncing := false, syncReq := Some(t), lastSyncedBlock := newLastSyncedBlock)]),
      fetched,
      None)
  }

  /** The start of a running cycle: the address is marked busy and its
      pending timer, if any, is cancelled. */
  function MarkSyncing(m: Manager, a: Address): (r: Manager)
    requires a in m.addresses
    ensures r.addresses.Keys == m.addresses.Keys
    ensures InQueue(r, a) && r.addresses[a].syncReq.None?
    ensures r.addresses[a].lastSyncedBlock == m.addresses[a].lastSyncedBlock
    ensures r.addresses[a].pausedState == m.addresses[a].pausedState
    ensures r == m.(addresses := r.addresses, timers := r.timers)
  {
    var rec := m.addresses[a];
    m.(addresses := m.addresses[a := rec.(syncing := true, syncReq := None)],
       timers := if rec.syncReq.Some? then m.timers - {rec.syncReq.value} else m.timers)
  }

  /** What the fetch result changes besides the address's record: the
      progress subscriber is called when notes came back, the range is
      halved on the rate-limit error, and a development build pauses on any
      other error. */
  function HandleOutcome(m: Manager, outcome: Outcome, currentBlock: int, toBlock: int, devMode: bool): (r: Manager)
    ensures r == m.(config := r.config, notifications := r.notifications, paused := r.paused)
    ensures outcome != RateLimited ==> r.config == m.config
    ensures outcome != FetchFailed ==> r.paused == m.paused
    ensures outcome != NotesFetched ==> r.notifications == m.notifications
  {
    match outcome
    case NotesFetched =>
      if m.progressSubscriber.Some?
      then m.(notifications := m.notifications + [Progress(m.progressSubscriber.value, currentBlock, toBlock)])
      else m
    case RateLimited => m.(config := m.config.(blocksPerRequest := m.config.blocksPerRequest / 2))
    case FetchFailed => m.(paused := m.paused || devMode)
  }

  /** Whether the cycle reaches an awaited call whose promise rejects: the
      asset lookup is always awaited, the log fetch only when there is a
      range to fetch, the saving only when notes came back. */
  predicate Rejects(o: SyncOptions, round: Round)
  {
    match round.rejectedAt
    case None => false
    case Some(SyncedAssets) => true
    case Some(FetchNotes) => round.currentBlock > o.lastSyncedBlock
    case Some(SaveNotes) => round.currentBlock > o.lastSyncedBlock && round.fetch.hasGroupedNotes
  }

  /** One call of `syncNotes(o)`, given what the environment answers and
      whether the build is a development build. A rejected await ends the
      cycle where it stands: the address stays busy, with no timer. */
  function Cycle(m: Manager, o: SyncOptions, round: Round, devMode: bool): (s: Step)
    requires o.address in m.addresses
    ensures s.after.addresses.Keys == m.addresses.Keys
    ensures s.next.Some? ==> s.next.value.address == o.address
  {
    var a := o.address;
    var rec := m.addresses[a];
    if rec.pausedState.Some? then Step(m, None, None)
    else if m.paused then Step(Pause(m, a, o), None, None)
    else
      var m1 := MarkSyncing(m, a);
      var cfg := m.config;
      if round.rejectedAt == Some(SyncedAssets) then Step(m1, None, None)
      else
      match Window(o.lastSyncedBlock, round.currentBlock, cfg.blocksPerRequest)
      case None => Schedule(m1, rec, o, o.lastSyncedBlock, None)
      case Some(w) =>
        if Rejects(o, round) then Step(m1, Some(w), None)
        else
        var shouldLoadNextPortion := round.currentBlock - w.fromBlock > cfg.precisionDelta;
        var outcome := Classify(round.fetch);
        var m2 := HandleOutcome(m1, outcome, round.currentBlock, w.toBlock, devMode);
        var newLast := if outcome == NotesFetched then w.toBlock else o.lastSyncedBlock;
        if shouldLoadNextPortion || outcome == RateLimited then
          Step(m2.(addresses := m2.addresses[a := rec.(lastSyncedBlock := newLast)]),
               Some(w),
               Some(o.(lastSyncedBlock := newLast)))
        else Schedule(m2, rec, o, newLast, Some(w))
  }

  /** The recursion of `syncNotes`, one environment answer per cycle. */
  function Drive(m: Manager, o: SyncOptions, rounds: seq<Round>, devMode: bool): (r: Run)
    requires o.address in m.addresses
    ensures r.after.addresses.Keys == m.addresses.Keys
    ensures r.pending.Some? ==> r.pending.value.address == o.address
    decreases |rounds|
  {
    if rounds == [] then Run(m, Some(o))
    else
      var s := Cycle(m, o, rounds[0], devMode);
      if s.next.None? then Run(s.after, None)
      else Drive(s.after, s.next.value, rounds[1..], devMode)
  }

  /** `sync({address, lastSyncedBlock, networkId})`. */
  function Sync(m: Manager, a: Address, lastSyncedBlock: int, networkId: nat, rounds: seq<Round>, devMode: bool): (r: Run)
    ensures r.after.addresses.Keys == m.addresses.Keys + {a}
    ensures r.pending.Some? ==> r.pending.value.address == a
  {
    Drive(SyncEntry(m, a, lastSyncedBlock, networkId), SyncOptions(a, lastSyncedBlock, networkId), rounds, devMode)
  }

  /** `resume(address)`: nothing on an untracked or running address;
      otherwise clear the snapshot and run a cycle with it, for this
      address. */
  function Resume(m: Manager, a: Address, rounds: seq<Round>, devMode: bool): (r: Run)
    ensures r.after.addresses.Keys == m.addresses.Keys
    ensures r.pending.Some? ==> r.pending.value.address == a
  {
    if a !in m.addresses || m.addresses[a].pausedState.None? then Run(m, None)
    else
      var snapshot := m.addresses[a].pausedState.value;
      Drive(m.(addresses := m.addresses[a := m.addresses[a].(pausedState := None)]),
            snapshot.(address := a), rounds, devMode)
  }

  /** A timer firing: a cancelled timer does nothing; a pending one runs the
      cycle with the options it was armed with. */
  function TimerFired(m: Manager, t: TimerId, rounds: seq<Round>, devMode: bool): (r: Run)
    requires Valid(m)
    ensures r.after.addresses.Keys == m.addresses.Keys
    ensures t !in m.timers ==> r.pending.None?
    ensures r.pending.Some? ==> t in m.timers && r.pending.value.address == m.timers[t].address
  {
    if t !in m.timers then Run(m, None)
    else Drive(m.(timers := m.timers - {t}), m.timers[t], rounds, devMode)
  }

  // ---------------------------------------------------------------------
  // What one cycle does
  // ---------------------------------------------------------------------

  /** A cycle on an address whose record holds a paused snapshot does
      nothing at all. */
  lemma CycleOnPausedAddressIsNoOp(m: Manager, o: SyncOptions, round: Round, devMode: bool)
    requires o.address in m.addresses && m.addresses[o.address].pausedState.Some?
    ensures Cycle(m, o, round, devMode) == Step(m, None, None)
  {
  }

  /** While the process-wide flag is set, a cycle fetches nothing: it stores
      its own options as the address's snapshot and stops. */
  lemma CycleWhileGloballyPaused(m: Manager, o: SyncOptions, round: Round, devMode: bool)
    requires o.address in m.addresses && m.addresses[o.address].pausedState.None? && m.paused
    ensures var s := Cycle(m, o, round, devMode);
      && s.fetched.None? && s.next.None?
      && s.after == m.(addresses := m.addresses[o.address := m.addresses[o.address].(pausedState := Some(o))])
  {
  }

  /** The range a cycle fetches starts right after the last synced block,
      ends at the head at the latest, and spans at most `blocksPerRequest`
      blocks beyond its start; a cycle fetches exactly when it is not paused,
      the asset lookup resolved and the head is past the last synced
      block. */
  lemma {:induction false} CycleFetchWindow(m: Manager, o: SyncOptions, round: Round, devMode: bool)
    requires o.address in m.addresses
    ensures var s := Cycle(m, o, round, devMode);
      && (s.fetched.Some? <==>
            && m.addresses[o.address].pausedState.None? && !m.paused
            && round.rejectedAt != Some(SyncedAssets) && round.currentBlock > o.lastSyncedBlock)
      && (s.fetched.Some? ==>
            && s.fetched.value.fromBlock == o.lastSyncedBlock + 1
            && o.lastSyncedBlock < s.fetched.value.fromBlock <= s.fetched.value.toBlock <= round.currentBlock
            && s.fetched.value.toBlock <= s.fetched.value.fromBlock + m.config.blocksPerRequest)
  {
    var s := Cycle(m, o, round, devMode);
    if m.addresses[o.address].pausedState.None? && !m.paused && round.rejectedAt != Some(SyncedAssets) {
      var w := Window(o.lastSyncedBlock, round.currentBlock, m.config.blocksPerRequest);
      assert s.fetched == w;
    }
  }

  /** The last synced block a cycle leaves behind: in the options of the
      cycle it starts, or in the record and the timer when it stops. */
  function NewLastSynced(s: Step, a: Address): int
    requires a in s.after.addresses
  {
    if s.next.Some? then s.next.value.lastSyncedBlock else s.after.addresses[a].lastSyncedBlock
  }

  /** The last synced block moves only when notes came back, and then to the
      end of the fetched range: never backwards and never past the head.
      The progress subscriber, if there is one, is called exactly then,
      with the head and the new last synced block. */
  lemma {:induction false} CycleAdvancesOnlyOnNotes(m: Manager, o: SyncOptions, round: Round, devMode: bool)
    requires o.address in m.addresses
    requires m.addresses[o.address].pausedState.None? && !m.paused
    requires !Rejects(o, round)
    ensures var s := Cycle(m, o, round, devMode);
      var newLast := NewLastSynced(s, o.address);
      && (s.fetched.Some? && Classify(round.fetch) == NotesFetched ==> newLast == s.fetched.value.toBlock)
      && (s.fetched.None? || Classify(round.fetch) != NotesFetched ==> newLast == o.lastSyncedBlock)
      && o.lastSyncedBlock <= newLast
      && (round.currentBlock > o.lastSyncedBlock ==> newLast <= round.currentBlock)
      && s.after.notifications ==
           if s.fetched.Some? && Classify(round.fetch) == NotesFetched && m.progressSubscriber.Some?
           then m.notifications + [Progress(m.progressSubscriber.value, round.currentBlock, s.fetched.value.toBlock)]
           else m.notifications
  {
    CycleFetchWindow(m, o, round, devMode);
  }

  /** On the rate-limit error the cycle halves `blocksPerRequest`, keeps the
      rest of the configuration and the last synced block, and starts the
      next cycle at once from the same block. */
  lemma {:induction false} CycleOnRateLimit(m: Manager, o: SyncOptions, round: Round, devMode: bool)
    requires o.address in m.addresses
    requires m.addresses[o.address].pausedState.None? && !m.paused
    requires !Rejects(o, round)
    requires round.currentBlock > o.lastSyncedBlock && Classify(round.fetch) == RateLimited
    ensures var s := Cycle(m, o, round, devMode);
      && s.after.config == m.config.(blocksPerRequest := m.config.blocksPerRequest / 2)
      && s.next == Some(o)
      && s.after.addresses[o.address].lastSyncedBlock == o.lastSyncedBlock
      && s.after.paused == m.paused
  {
    CycleFetchWindow(m, o, round, devMode);
  }

  /** Any other failed fetch leaves the configuration and the last synced
      block alone and sets the process-wide flag exactly in a development
      build. */
  lemma {:induction false} CycleOnFetchFailure(m: Manager, o: SyncOptions, round: Round, devMode: bool)
    requires o.address in m.addresses
    requires m.addresses[o.address].pausedState.None? && !m.paused
    requires !Rejects(o, round)
    requires round.currentBlock > o.lastSyncedBlock && Classify(round.fetch) == FetchFailed
    ensures var s := Cycle(m, o, round, devMode);
      && s.after.config == m.config
      && NewLastSynced(s, o.address) == o.lastSyncedBlock
      && s.after.paused == devMode
      && s.after.notifications == m.notifications
  {
    CycleFetchWindow(m, o, round, devMode);
  }

  /** An awaited call that rejects ends the cycle where it stands: the
      address is left busy with its timer cancelled and no new one armed,
      nothing else changes, and no cycle follows. So the address stays in
      the queue and nothing polls it again until `sync` or `resume` runs a
      new cycle for it. */
  lemma {:induction false} CycleOnRejection(m: Manager, o: SyncOptions, round: Round, devMode: bool)
    requires Valid(m) && o.address in m.addresses
    requires m.addresses[o.address].pausedState.None? && !m.paused
    requires Rejects(o, round)
    ensures var s := Cycle(m, o, round, devMode);
      var a := o.address;
      && s.next.None?
      && s.after.addresses == m.addresses[a := m.addresses[a].(syncing := true, syncReq := None)]
      && InQueue(s.after, a)
      && (forall t :: t in s.after.timers <==> t in m.timers && m.timers[t].address != a)
      && (forall t :: t in s.after.timers ==> s.after.timers[t] == m.timers[t])
      && s.after == m.(addresses := s.after.addresses, timers := s.after.timers)
  {
    var a := o.address;
    var rec := m.addresses[a];
    var s := Cycle(m, o, round, devMode);
    assert s.after == MarkSyncing(m, a);
    forall t | t in m.timers && m.timers[t].address == a
      ensures rec.syncReq == Some(t)
    {
    }
  }

  /** How a fetching cycle ends: it starts the next cycle at once exactly
      when the head is more than `precisionDelta` blocks past the start of
      the range or the rate limit was hit. Otherwise it arms a fresh timer
      that re-runs it from the new last synced block, and leaves the record
      idle with that timer and block. */
  lemma {:induction false} CycleContinuesOrSchedules(m: Manager, o: SyncOptions, round: Round, devMode: bool)
    requires Valid(m)
    requires o.address in m.addresses
    requires m.addresses[o.address].pausedState.None? && !m.paused
    requires !Rejects(o, round)
    ensures var s := Cycle(m, o, round, devMode);
      var rec := m.addresses[o.address];
      && (s.fetched.Some? ==>
            (s.next.Some? <==>
               round.currentBlock - s.fetched.value.fromBlock > m.config.precisionDelta
               || Classify(round.fetch) == RateLimited))
      && (s.fetched.None? ==> s.next.None?)
      && (s.next.None? ==>
            var t := m.nextTimer;
            var newLast := s.after.addresses[o.address].lastSyncedBlock;
            && t !in m.timers
            && s.after.addresses[o.address] == rec.(syncing := false, syncReq := Some(t), lastSyncedBlock := newLast)
            && t in s.after.timers && s.after.timers[t] == o.(lastSyncedBlock := newLast)
            && s.after.nextTimer == t + 1)
      && (s.next.Some? ==>
            s.after.addresses[o.address] == rec.(lastSyncedBlock := s.next.value.lastSyncedBlock))
  {
    CycleFetchWindow(m, o, round, devMode);
  }

  /** What any cycle does to the state shared by all addresses: the
      configuration changes only when a fetch the cycle reached hit the
      rate limit, and then only by halving `blocksPerRequest`; the
      process-wide flag is set only by another failed fetch in a
      development build; the subscriber is never changed. */
  lemma {:induction false} CycleSharedState(m: Manager, o: SyncOptions, round: Round, devMode: bool)
    requires o.address in m.addresses
    ensures var s := Cycle(m, o, round, devMode);
      var reached := m.addresses[o.address].pausedState.None? && !m.paused
        && !Rejects(o, round) && round.currentBlock > o.lastSyncedBlock;
      && s.after.config ==
           (if reached && Classify(round.fetch) == RateLimited
            then m.config.(blocksPerRequest := m.config.blocksPerRequest / 2)
            else m.config)
      && s.after.paused == (m.paused || (reached && Classify(round.fetch) == FetchFailed && devMode))
      && s.after.progressSubscriber == m.progressSubscriber
  {
  }

  /** In a production build, a failed fetch while the head is more than
      `precisionDelta` blocks ahead starts the next cycle at once, with the
      very same options: nothing waits for the poll interval. */
  lemma FailedFetchRetriesAtOnce(m: Manager, o: SyncOptions, round: Round)
    requires o.address in m.addresses
    requires m.addresses[o.address].pausedState.None? && !m.paused
    requires Classify(round.fetch) == FetchFailed && !Rejects(o, round)
    requires round.currentBlock - (o.lastSyncedBlock + 1) > m.config.precisionDelta
    ensures Cycle(m, o, round, false).next == Some(o)
    ensures !Cycle(m, o, round, false).after.paused
  {
    CycleFetchWindow(m, o, round, false);
  }

  /** After a rate-limited cycle, the next cycle retries from the same block
      with a range at most half as long, so no block is skipped. */
  lemma RateLimitRetriesSameBlock(m: Manager, o: SyncOptions, first: Round, second: Round, devMode: bool)
    requires o.address in m.addresses
    requires m.addresses[o.address].pausedState.None? && !m.paused
    requires first.currentBlock > o.lastSyncedBlock && Classify(first.fetch) == RateLimited && !Rejects(o, first)
    requires second.currentBlock > o.lastSyncedBlock && second.rejectedAt != Some(SyncedAssets)
    ensures var s1 := Cycle(m, o, first, devMode);
      && s1.next == Some(o)
      && var s2 := Cycle(s1.after, o, second, devMode);
      && s1.fetched.Some? && s2.fetched.Some?
      && s2.fetched.value.fromBlock == s1.fetched.value.fromBlock
      && s2.fetched.value.toBlock <= s2.fetched.value.fromBlock + m.config.blocksPerRequest / 2
      && (Classify(second.fetch) != RateLimited ==>
            s2.after.config == m.config.(blocksPerRequest := m.config.blocksPerRequest / 2))
  {
    CycleOnRateLimit(m, o, first, devMode);
    var s1 := Cycle(m, o, first, devMode);
    CycleFetchWindow(m, o, first, devMode);
    assert s1.after.addresses[o.address].pausedState.None?;
    CycleFetchWindow(s1.after, o, second, devMode);
    CycleSharedState(s1.after, o, second, devMode);
  }

  // ---------------------------------------------------------------------
  // The invariant
  // ---------------------------------------------------------------------

  lemma InitialIsValid()
    ensures Valid(Initial())
  {
  }

  /** An address has at most one pending timer. */
  lemma OneTimerPerAddress(m: Manager, t1: TimerId, t2: TimerId)
    requires Valid(m)
    requires t1 in m.timers && t2 in m.timers && m.timers[t1].address == m.timers[t2].address
    ensures t1 == t2
  {
  }

  /** The invariant, with no timer pending for address a. */
  predicate ValidWithoutTimerFor(m: Manager, a: Address)
  {
    && Valid(m)
    && forall t :: t in m.timers ==> m.timers[t].address != a
  }

  /** With no timer pending for a, a's record can be rewritten freely. */
  lemma RewriteRecordKeepsValid(m: Manager, a: Address, rec: SyncRecord)
    requires ValidWithoutTimerFor(m, a) && a in m.addresses
    requires rec.syncReq.Some? ==> rec.syncReq.value < m.nextTimer && rec.syncReq.value !in m.timers
    ensures ValidWithoutTimerFor(m.(addresses := m.addresses[a := rec]), a)
  {
  }

  /** Arming the timer of a, when a has none pending, keeps the invariant. */
  lemma ScheduleKeepsValid(m: Manager, rec: SyncRecord, o: SyncOptions, newLast: int, fetched: Option<BlockRange>)
    requires ValidWithoutTimerFor(m, o.address) && o.address in m.addresses
    ensures Valid(Schedule(m, rec, o, newLast, fetched).after)
  {
  }

  /** Marking the address busy cancels the only timer it may have
      pending, which is its own, and touches no other address. */
  lemma MarkSyncingKeepsValid(m: Manager, a: Address)
    requires Valid(m) && a in m.addresses
    ensures var m1 := MarkSyncing(m, a);
      && ValidWithoutTimerFor(m1, a)
      && Untouched(m, m1, a)
      && m1.nextTimer == m.nextTimer
      && (m.addresses[a].syncReq.Some? ==>
            m.addresses[a].syncReq.value < m1.nextTimer && m.addresses[a].syncReq.value !in m1.timers)
  {
  }

  /** Marking the address busy touches no other address, and leaves the
      next handle unused. */
  lemma MarkSyncingFrame(m: Manager, a: Address)
    requires Valid(m) && a in m.addresses
    ensures var m1 := MarkSyncing(m, a);
      Untouched(m, m1, a) && m1.nextTimer !in m1.timers
  {
    MarkSyncingKeepsValid(m, a);
  }

  /** Arming a fresh timer for an address touches no other address. */
  lemma ScheduleTouchesOnlyItsAddress(m: Manager, rec: SyncRecord, o: SyncOptions, newLast: int, fetched: Option<BlockRange>)
    requires m.nextTimer !in m.timers
    ensures Untouched(m, Schedule(m, rec, o, newLast, fetched).after, o.address)
  {
  }

  lemma {:induction false} CyclePreservesValid(m: Manager, o: SyncOptions, round: Round, devMode: bool)
    requires Valid(m) && o.address in m.addresses
    ensures Valid(Cycle(m, o, round, devMode).after)
  {
    var a := o.address;
    var rec := m.addresses[a];
    if rec.pausedState.Some? {
    } else if m.paused {
      PausePreservesValid(m, a, o);
    } else {
      var m1 := MarkSyncing(m, a);
      MarkSyncingKeepsValid(m, a);
      if round.rejectedAt != Some(SyncedAssets) {
        match Window(o.lastSyncedBlock, round.currentBlock, m.config.blocksPerRequest)
        case None =>
          ScheduleKeepsValid(m1, rec, o, o.lastSyncedBlock, None);
        case Some(w) =>
          if !Rejects(o, round) {
            var outcome := Classify(round.fetch);
            var m2 := HandleOutcome(m1, outcome, round.currentBlock, w.toBlock, devMode);
            assert m2 == m1.(config := m2.config, notifications := m2.notifications, paused := m2.paused);
            var newLast := if outcome == NotesFetched then w.toBlock else o.lastSyncedBlock;
            RewriteRecordKeepsValid(m2, a, rec.(lastSyncedBlock := newLast));
            ScheduleKeepsValid(m2, rec, o, newLast, Some(w));
          }
      }
    }
  }

  /** State n keeps every record of an address other than a, and every
      pending timer of another address with its options, from state m. */
  predicate Untouched(m: Manager, n: Manager, a: Address)
  {
    && (forall b :: b in m.addresses && b != a ==> b in n.addresses && n.addresses[b] == m.addresses[b])
    && (forall t :: t in m.timers && m.timers[t].address != a ==> t in n.timers && n.timers[t] == m.timers[t])
  }

  lemma UntouchedTrans(m: Manager, n: Manager, p: Manager, a: Address)
    requires Untouched(m, n, a) && Untouched(n, p, a)
    ensures Untouched(m, p, a)
  {
  }

  /** A cycle touches only its own address: every other record stays as it
      was, and every pending timer of another address stays pending with
      the options it was armed with. */
  lemma {:induction false} CycleFrame(m: Manager, o: SyncOptions, round: Round, devMode: bool)
    requires Valid(m) && o.address in m.addresses
    ensures Untouched(m, Cycle(m, o, round, devMode).after, o.address)
  {
    var a := o.address;
    var rec := m.addresses[a];
    if rec.pausedState.None? && !m.paused {
      var m1 := MarkSyncing(m, a);
      MarkSyncingFrame(m, a);
      var after := Cycle(m, o, round, devMode).after;
      if round.rejectedAt != Some(SyncedAssets) {
        match Window(o.lastSyncedBlock, round.currentBlock, m.config.blocksPerRequest)
        case None =>
          ScheduleTouchesOnlyItsAddress(m1, rec, o, o.lastSyncedBlock, None);
          UntouchedTrans(m, m1, after, a);
        case Some(w) =>
          if !Rejects(o, round) {
            var outcome := Classify(round.fetch);
            var m2 := HandleOutcome(m1, outcome, round.currentBlock, w.toBlock, devMode);
            assert m2 == m1.(config := m2.config, notifications := m2.notifications, paused := m2.paused);
            var newLast := if outcome == NotesFetched then w.toBlock else o.lastSyncedBlock;
            if round.currentBlock - w.fromBlock > m.config.precisionDelta || outcome == RateLimited {
              assert after == m2.(addresses := m2.addresses[a := rec.(lastSyncedBlock := newLast)]);
            } else {
              assert after == Schedule(m2, rec, o, newLast, Some(w)).after;
              ScheduleTouchesOnlyItsAddress(m2, rec, o, newLast, Some(w));
            }
            UntouchedTrans(m, m1, after, a);
          }
      }
    }
  }

  lemma {:induction false} DrivePreservesValid(m: Manager, o: SyncOptions, rounds: seq<Round>, devMode: bool)
    requires Valid(m) && o.address in m.addresses
    ensures Valid(Drive(m, o, rounds, devMode).after)
    decreases |rounds|
  {
    if rounds != [] {
      CyclePreservesValid(m, o, rounds[0], devMode);
      var s := Cycle(m, o, rounds[0], devMode);
      if s.next.Some? {
        DrivePreservesValid(s.after, s.next.value, rounds[1..], devMode);
      }
    }
  }

  lemma SyncPreservesValid(m: Manager, a: Address, lastSyncedBlock: int, networkId: nat, rounds: seq<Round>, devMode: bool)
    requires Valid(m)
    ensures Valid(Sync(m, a, lastSyncedBlock, networkId, rounds, devMode).after)
  {
    DrivePreservesValid(SyncEntry(m, a, lastSyncedBlock, networkId), SyncOptions(a, lastSyncedBlock, networkId), rounds, devMode);
  }

  lemma PausePreservesValid(m: Manager, a: Address, prevState: SyncOptions)
    requires Valid(m)
    ensures Valid(Pause(m, a, prevState))
  {
  }

  lemma ResumePreservesValid(m: Manager, a: Address, rounds: seq<Round>, devMode: bool)
    requires Valid(m)
    ensures Valid(Resume(m, a, rounds, devMode).after)
  {
    if a in m.addresses && m.addresses[a].pausedState.Some? {
      var snapshot := m.addresses[a].pausedState.value;
      DrivePreservesValid(m.(addresses := m.addresses[a := m.addresses[a].(pausedState := None)]),
                          snapshot.(address := a), rounds, devMode);
    }
  }

  lemma TimerFiredPreservesValid(m: Manager, t: TimerId, rounds: seq<Round>, devMode: bool)
    requires Valid(m)
    ensures Valid(TimerFired(m, t, rounds, devMode).after)
  {
    if t in m.timers {
      DrivePreservesValid(m.(timers := m.timers - {t}), m.timers[t], rounds, devMode);
    }
  }

  // ---------------------------------------------------------------------
  // Chains of cycles
  // ---------------------------------------------------------------------

  /** Running out of answers and carrying on later from the pending options
      is the same as having had all the answers at once: the bounded chain
      is faithful to the unbounded recursion. */
  lemma {:induction false} DriveSplits(m: Manager, o: SyncOptions, first: seq<Round>, rest: seq<Round>, devMode: bool)
    requires o.address in m.addresses
    ensures var r1 := Drive(m, o, first, devMode);
      Drive(m, o, first + rest, devMode) ==
        if r1.pending.Some? then Drive(r1.after, r1.pending.value, rest, devMode) else r1
    decreases |first|
  {
    if first != [] {
      assert (first + rest)[0] == first[0];
      assert (first + rest)[1..] == first[1..] + rest;
      var s := Cycle(m, o, first[0], devMode);
      if s.next.Some? {
        DriveSplits(s.after, s.next.value, first[1..], rest, devMode);
      }
    } else {
      assert first + rest == rest;
    }
  }

  /** Along a chain of cycles the options never move back: a pending cycle
      starts at or after the block the chain started from. */
  lemma {:induction false} DriveNeverRewinds(m: Manager, o: SyncOptions, rounds: seq<Round>, devMode: bool)
    requires o.address in m.addresses
    ensures var r := Drive(m, o, rounds, devMode);
      r.pending.Some? ==> r.pending.value.lastSyncedBlock >= o.lastSyncedBlock
    decreases |rounds|
  {
    if rounds != [] {
      var s := Cycle(m, o, rounds[0], devMode);
      if s.next.Some? {
        var a := o.address;
        if m.addresses[a].pausedState.None? && !m.paused && !Rejects(o, rounds[0]) {
          CycleAdvancesOnlyOnNotes(m, o, rounds[0], devMode);
        }
        DriveNeverRewinds(s.after, s.next.value, rounds[1..], devMode);
      }
    }
  }

  /** A chain of cycles for one address leaves every other address alone:
      its record, and its pending timer with its options. In particular
      another address's cycles neither resume a paused address nor stop
      the polling of a running one. */
  lemma {:induction false} DriveFrame(m: Manager, o: SyncOptions, rounds: seq<Round>, devMode: bool)
    requires Valid(m) && o.address in m.addresses
    ensures Untouched(m, Drive(m, o, rounds, devMode).after, o.address)
    decreases |rounds|
  {
    if rounds != [] {
      CycleFrame(m, o, rounds[0], devMode);
      var s := Cycle(m, o, rounds[0], devMode);
      if s.next.Some? {
        CyclePreservesValid(m, o, rounds[0], devMode);
        DriveFrame(s.after, s.next.value, rounds[1..], devMode);
        UntouchedTrans(m, s.after, Drive(m, o, rounds, devMode).after, o.address);
      }
    }
  }

  /** A paused address is frozen: whatever the environment answers, a chain
      of cycles for it changes nothing, in particular not its last synced
      block, until it is resumed. */
  lemma PausedAddressIsFrozen(m: Manager, o: SyncOptions, rounds: seq<Round>, devMode: bool)
    requires o.address in m.addresses && m.addresses[o.address].pausedState.Some?
    requires rounds != []
    ensures Drive(m, o, rounds, devMode) == Run(m, None)
  {
    CycleOnPausedAddressIsNoOp(m, o, rounds[0], devMode);
  }

  /** After `pause`, the address's timer firing only drops the timer. */
  lemma TimerOfPausedAddressOnlyExpires(m: Manager, a: Address, prevState: SyncOptions, t: TimerId, rounds: seq<Round>, devMode: bool)
    requires Valid(m) && a in m.addresses && rounds != []
    requires t in m.timers && m.timers[t].address == a
    ensures var p := Pause(m, a, prevState);
      Valid(p) && TimerFired(p, t, rounds, devMode) == Run(p.(timers := p.timers - {t}), None)
  {
    var p := Pause(m, a, prevState);
    PausePreservesValid(m, a, prevState);
    PausedAddressIsFrozen(p.(timers := p.timers - {t}), p.timers[t], rounds, devMode);
  }

  /** `resume` on a paused address clears the snapshot and runs the cycle
      with the snapshot for this address; on any other address it does
      nothing. */
  lemma ResumeRestartsFromSnapshot(m: Manager, a: Address, rounds: seq<Round>, devMode: bool)
    ensures a !in m.addresses || m.addresses[a].pausedState.None? ==> Resume(m, a, rounds, devMode) == Run(m, None)
    ensures a in m.addresses && m.addresses[a].pausedState.Some? ==>
      var cleared := m.(addresses := m.addresses[a := m.addresses[a].(pausedState := None)]);
      && cleared.addresses[a].pausedState.None?
      && Resume(m, a, rounds, devMode) == Drive(cleared, m.addresses[a].pausedState.value.(address := a), rounds, devMode)
  {
  }

  /** `sync` on an address that is paused leaves everything as it was:
      the paused state wins. */
  lemma SyncOnPausedAddressIsNoOp(m: Manager, a: Address, lastSyncedBlock: int, networkId: nat, rounds: seq<Round>, devMode: bool)
    requires a in m.addresses && m.addresses[a].pausedState.Some? && rounds != []
    ensures Sync(m, a, lastSyncedBlock, networkId, rounds, devMode) == Run(m, None)
  {
    PausedAddressIsFrozen(m, SyncOptions(a, lastSyncedBlock, networkId), rounds, devMode);
  }

  /** A cycle that stops leaves its address in the queue: it holds the
      timer it armed, or, after a rejected await, it is still busy. */
  lemma ScheduledAddressIsInQueue(m: Manager, o: SyncOptions, round: Round, devMode: bool)
    requires Valid(m) && o.address in m.addresses
    requires m.addresses[o.address].pausedState.None? && !m.paused
    ensures Cycle(m, o, round, devMode).next.None? ==> InQueue(Cycle(m, o, round, devMode).after, o.address)
  {
    if !Rejects(o, round) {
      CycleContinuesOrSchedules(m, o, round, devMode);
    }
  }

  /** A record `sync` has just created is not in the queue. */
  lemma NewEntryIsNotInQueue(m: Manager, a: Address, lastSyncedBlock: int, networkId: nat)
    requires a !in m.addresses
    ensures !InQueue(SyncEntry(m, a, lastSyncedBlock, networkId), a)
  {
  }

  /** The page-by-page backfill, as the code behaves: from block 100 with
      the head at 200, 50 blocks per request and a precision delta of 10,
      the first cycle fetches [101, 151] and recurses; the second fetches
      [152, 200] and recurses again, because the gap is measured from the
      start of the range (200 - 152 > 10); the third has nothing to fetch
      and arms the poll timer at block 200. */
  lemma BackfillScenario(m: Manager, a: Address, notes: FetchResult)
    requires a in m.addresses && m.addresses[a].pausedState.None? && !m.paused
    requires m.config.blocksPerRequest == 50 && m.config.precisionDelta == 10
    requires notes.hasGroupedNotes
    ensures var o := SyncOptions(a, 100, m.addresses[a].networkId);
      var round := Round(200, notes, None);
      var s1 := Cycle(m, o, round, false);
      && s1.fetched == Some(BlockRange(101, 151)) && s1.next == Some(o.(lastSyncedBlock := 151))
      && var s2 := Cycle(s1.after, s1.next.value, round, false);
      && s2.fetched == Some(BlockRange(152, 200)) && s2.next == Some(o.(lastSyncedBlock := 200))
      && var s3 := Cycle(s2.after, s2.next.value, round, false);
      && s3.fetched.None? && s3.next.None?
      && s3.after.addresses[a].lastSyncedBlock == 200
      && s3.after.timers[s2.after.nextTimer] == o.(lastSyncedBlock := 200)
  {
  }
}

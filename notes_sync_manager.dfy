/**
 * `SyncManager` as a class whose methods update its fields in place, step
 * by step as the source does. Each method is proved to take the state
 * exactly where the value model in `NotesSync` says, so every property
 * proved there holds of the class.
 */
module NotesSyncManager {
  import opened Wrappers
  import opened NotesSync

  class SyncManager {
    var config: Config
    var addresses: map<Address, SyncRecord>
    var paused: bool
    var progressSubscriber: Option<SubscriberId>
    /** The calls made to progress subscribers, oldest first. */
    var notifications: seq<Progress>
    /** The timers armed and not yet fired or cancelled, with the options
        their callbacks re-run the cycle with. */
    var timers: map<TimerId, SyncOptions>
    /** The handle the next `setTimeout` returns. */
    var nextTimer: TimerId

    function State(): Manager
      reads this
    {
      Manager(config, addresses, paused, progressSubscriber, notifications, timers, nextTimer)
    }

    ghost predicate Valid()
      reads this
    {
      NotesSync.Valid(State())
    }

    constructor ()
      ensures State() == Initial()
      ensures Valid()
    {
      config := DefaultConfig;
      addresses := map[];
      paused := false;
      progressSubscriber := None;
      notifications := [];
      timers := map[];
      nextTimer := 1;
    }

    method SetConfig(patch: ConfigPatch)
      requires Valid()
      modifies this
      ensures Valid()
      ensures State() == old(State()).(config := MergeConfig(old(config), patch))
    {
      if patch.syncInterval.Some? {
        config := config.(syncInterval := patch.syncInterval.value);
      }
      if patch.blocksPerRequest.Some? {
        config := config.(blocksPerRequest := patch.blocksPerRequest.value);
      }
      if patch.precisionDelta.Some? {
        config := config.(precisionDelta := patch.precisionDelta.value);
      }
    }

    method IsInQueue(a: Address) returns (b: bool)
      ensures b == InQueue(State(), a)
    {
      if a !in addresses {
        return false;
      }
      var syncAddress := addresses[a];
      b := syncAddress.syncing || syncAddress.syncReq.Some?;
    }

    method HandleFetchError(devMode: bool)
      modifies this
      ensures old(Valid()) ==> Valid()
      ensures State() == old(State()).(paused := old(paused) || devMode)
    {
      if devMode {
        paused := true;
      }
    }

    method Pause(a: Address, prevState: SyncOptions)
      requires Valid()
      modifies this
      ensures Valid()
      ensures State() == NotesSync.Pause(old(State()), a, prevState)
    {
      PausePreservesValid(State(), a, prevState);
      if a !in addresses {
        return;
      }
      var syncAddress := addresses[a];
      addresses := addresses[a := syncAddress.(pausedState := Some(prevState))];
    }

    /** `syncProgress`, with the head block that `getBlockNumber` returns
        passed in. */
    method SyncProgress(a: Address, blocks: int) returns (p: Option<(int, int)>)
      ensures p == NotesSync.SyncProgress(State(), a, blocks)
    {
      if a !in addresses {
        return None;
      }
      p := Some((blocks, addresses[a].lastSyncedBlock));
    }

    method SetProgressCallback(callback: Option<SubscriberId>)
      requires Valid()
      modifies this
      ensures Valid()
      ensures State() == old(State()).(progressSubscriber := callback)
    {
      progressSubscriber := callback;
    }

    /** The start of a running cycle: the address is marked busy and its
        pending timer cleared. */
    method MarkBusy(a: Address)
      requires a in addresses
      modifies this
      ensures State() == MarkSyncing(old(State()), a)
    {
      var syncAddress := addresses[a];
      addresses := addresses[a := syncAddress.(syncing := true, syncReq := None)];
      if syncAddress.syncReq.Some? {
        timers := timers - {syncAddress.syncReq.value};
      }
    }

    /** The branches on the fetch result, apart from the record. */
    method ApplyOutcome(outcome: Outcome, currentBlock: int, toBlock: int, devMode: bool)
      modifies this
      ensures State() == HandleOutcome(old(State()), outcome, currentBlock, toBlock, devMode)
    {
      if outcome == NotesFetched {
        if progressSubscriber.Some? {
          notifications := notifications + [Progress(progressSubscriber.value, currentBlock, toBlock)];
        }
      } else if outcome == RateLimited {
        config := config.(blocksPerRequest := config.blocksPerRequest / 2);
      } else {
        HandleFetchError(devMode);
      }
    }

    /** The end of a cycle that does not recurse: arm the poll timer and
        write the record, rebuilt from the snapshot taken at the start. */
    method ArmTimer(syncAddress: SyncRecord, o: SyncOptions, newLastSyncedBlock: int)
      modifies this
      ensures State() == Schedule(old(State()), syncAddress, o, newLastSyncedBlock, None).after
    {
      var syncReq := nextTimer;
      nextTimer := nextTimer + 1;
      timers := timers[syncReq := o.(lastSyncedBlock := newLastSyncedBlock)];
      addresses := addresses[o.address := syncAddress.(syncing := false, syncReq := Some(syncReq), lastSyncedBlock := newLastSyncedBlock)];
    }

    /** One call of `syncNotes`, up to its recursive call, its timer or the
        awaited call that rejects. */
    method RunCycle(o: SyncOptions, round: Round, devMode: bool) returns (fetched: Option<BlockRange>, next: Option<SyncOptions>)
      requires o.address in addresses
      modifies this
      ensures Step(State(), fetched, next) == Cycle(old(State()), o, round, devMode)
    {
      var a := o.address;
      var syncAddress := addresses[a];
      fetched, next := None, None;
      if syncAddress.pausedState.Some? {
        return;
      }
      if paused {
        addresses := addresses[a := syncAddress.(pausedState := Some(o))];
        return;
      }
      MarkBusy(a);
      var cfg := config;
      if round.rejectedAt == Some(SyncedAssets) {
        return;
      }
      var newLastSyncedBlock := o.lastSyncedBlock;
      if round.currentBlock > o.lastSyncedBlock {
        var fromBlock := o.lastSyncedBlock + 1;
        var toBlock := if fromBlock + cfg.blocksPerRequest <= round.currentBlock then fromBlock + cfg.blocksPerRequest else round.currentBlock;
        var shouldLoadNextPortion := round.currentBlock - fromBlock > cfg.precisionDelta;
        fetched := Some(BlockRange(fromBlock, toBlock));
        assert fetched == Window(o.lastSyncedBlock, round.currentBlock, cfg.blocksPerRequest);
        if round.rejectedAt == Some(FetchNotes) {
          return;
        }
        var outcome := Classify(round.fetch);
        if outcome == NotesFetched && round.rejectedAt == Some(SaveNotes) {
          return;
        }
        ApplyOutcome(outcome, round.currentBlock, toBlock, devMode);
        if outcome == NotesFetched {
          newLastSyncedBlock := toBlock;
        } else if outcome == RateLimited {
          shouldLoadNextPortion := true;
        }
        if shouldLoadNextPortion {
          addresses := addresses[a := syncAddress.(lastSyncedBlock := newLastSyncedBlock)];
          next := Some(o.(lastSyncedBlock := newLastSyncedBlock));
          return;
        }
      }
      ArmTimer(syncAddress, o, newLastSyncedBlock);
    }

    /** `syncNotes`: cycles run back to back for as long as each recurses and
        the environment answers; `pending` holds the options of the cycle
        due next when the answers ran out first. */
    method SyncNotes(o: SyncOptions, rounds: seq<Round>, devMode: bool) returns (pending: Option<SyncOptions>)
      requires o.address in addresses
      modifies this
      ensures old(Valid()) ==> Valid()
      ensures Run(State(), pending) == Drive(old(State()), o, rounds, devMode)
    {
      if Valid() {
        DrivePreservesValid(State(), o, rounds, devMode);
      }
      pending := Some(o);
      var i := 0;
      while i < |rounds| && pending.Some?
        invariant 0 <= i <= |rounds|
        invariant pending.Some? ==> pending.value.address == o.address && o.address in addresses
        invariant pending.Some? ==>
          Drive(old(State()), o, rounds, devMode) == Drive(State(), pending.value, rounds[i..], devMode)
        invariant pending.None? ==> Drive(old(State()), o, rounds, devMode) == Run(State(), None)
        decreases |rounds| - i
      {
        assert rounds[i..][1..] == rounds[i + 1..];
        var _, next := RunCycle(pending.value, rounds[i], devMode);
        pending := next;
        i := i + 1;
      }
      if pending.Some? {
        assert rounds[i..] == [];
      }
    }

    method Sync(a: Address, lastSyncedBlock: int, networkId: nat, rounds: seq<Round>, devMode: bool) returns (pending: Option<SyncOptions>)
      requires Valid()
      modifies this
      ensures Valid()
      ensures Run(State(), pending) == NotesSync.Sync(old(State()), a, lastSyncedBlock, networkId, rounds, devMode)
    {
      SyncPreservesValid(State(), a, lastSyncedBlock, networkId, rounds, devMode);
      if a !in addresses {
        addresses := addresses[a := SyncRecord(false, None, lastSyncedBlock, networkId, None)];
      }
      pending := SyncNotes(SyncOptions(a, lastSyncedBlock, networkId), rounds, devMode);
    }

    method Resume(a: Address, rounds: seq<Round>, devMode: bool) returns (pending: Option<SyncOptions>)
      requires Valid()
      modifies this
      ensures Valid()
      ensures Run(State(), pending) == NotesSync.Resume(old(State()), a, rounds, devMode)
    {
      ResumePreservesValid(State(), a, rounds, devMode);
      if a !in addresses {
        return None;
      }
      var syncAddress := addresses[a];
      if syncAddress.pausedState.None? {
        return None;
      }
      var pausedState := syncAddress.pausedState.value;
      addresses := addresses[a := syncAddress.(pausedState := None)];
      pending := SyncNotes(pausedState.(address := a), rounds, devMode);
    }

    /** The callback of a timer: runs the cycle it was armed with, unless the
        timer was cancelled. */
    method TimerFired(t: TimerId, rounds: seq<Round>, devMode: bool) returns (pending: Option<SyncOptions>)
      requires Valid()
      modifies this
      ensures Valid()
      ensures Run(State(), pending) == NotesSync.TimerFired(old(State()), t, rounds, devMode)
    {
      TimerFiredPreservesValid(State(), t, rounds, devMode);
      if t !in timers {
        return None;
      }
      var options := timers[t];
      timers := timers - {t};
      pending := SyncNotes(options, rounds, devMode);
    }
  }
}

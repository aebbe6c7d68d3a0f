/**
 * The browser loop that migrates batch after batch (apps/web/lib/e2ee-to-managed-worker.ts). Everything that
 * can happen to it is an event; a callback may dispose the loop, throw, or both while it runs.
 */
module MigrationLoop {
  import opened Prelude

  const MAX_CONFLICT_RETRIES: nat := 3

  datatype MigrationState = Pending | Running | Blocked | Complete

  datatype Status = Status(state: MigrationState, e2eeRecords: nat, migratedRecords: nat)

  datatype BatchResult = BatchResult(migrated: nat, remaining: nat, complete: bool)

  /** What a callback does besides being called. */
  datatype Callback = Callback(disposes: bool, throws: bool)

  datatype Event =
    | Start(ready: bool)
    | Wake(ready: bool)
    | StatusArrives(status: Status, onStatus: Callback, onComplete: Callback, ready: bool, copyFails: bool)
    | StatusFails
    | BatchArrives(result: BatchResult, onStatus: Callback, onComplete: Callback)
    | BatchConflict
    | BatchFails
    | Settle(onError: Callback)
    | Finalize(ready: bool)
    | TimerFires(ready: bool)
    | Dispose

  datatype Entry =
    | RunStarted
    | RunEnded
    | StatusCalled(status: Status)
    | CompleteCalled
    | ErrorCalled
    | KeyCopied
    | KeyZeroed
    | BatchSucceeded
    | TimerSet(delayMs: nat)
    | TimerFired
    | TimerCleared
    | Disposed

  /** Where the run in flight is; settled runs still have their last handlers to go through. */
  datatype Stage =
    | Idle
    | AwaitingStatus
    | AwaitingBatch(status: Status)
    | Settling(repeat: bool, failed: bool)
    | Finalizing(repeat: bool)

  datatype Loop = Loop(
    started: bool, disposed: bool, running: bool, complete: bool, conflictRetries: nat, retryScheduled: bool,
    stage: Stage, log: seq<Entry>)

  const NEW: Loop := Loop(false, false, false, false, 0, false, Idle, [])

  function Logged(loop: Loop, entry: Entry): Loop { loop.(log := loop.log + [entry]) }

  /** `ready`: the page is visible and online. */
  predicate Runnable(loop: Loop, ready: bool) {
    !loop.disposed && !loop.complete && !loop.retryScheduled && ready
  }

  function Schedule(loop: Loop, ready: bool): Loop {
    if !Runnable(loop, ready) || loop.running then loop
    else Logged(loop.(running := true, stage := AwaitingStatus), RunStarted)
  }

  function DisposeLoop(loop: Loop): Loop {
    if loop.disposed then loop
    else
      var disposed := Logged(loop.(disposed := true), Disposed);
      if disposed.retryScheduled then Logged(disposed.(retryScheduled := false), TimerCleared) else disposed
  }

  function Called(loop: Loop, entry: Entry, callback: Callback): Loop {
    var called := Logged(loop, entry);
    if callback.disposes then DisposeLoop(called) else called
  }

  /** The run's promise settles: with the answer whether to repeat, or failed. */
  function Settled(loop: Loop, repeat: bool, failed: bool): Loop { loop.(stage := Settling(repeat, failed)) }

  /** Completes once; the callback may throw, which fails the run. */
  function Finish(loop: Loop, callback: Callback): Loop {
    if loop.complete || loop.disposed then Settled(loop, false, false)
    else Settled(Called(loop.(complete := true), CompleteCalled, callback), false, callback.throws)
  }

  function OnStatus(loop: Loop, event: Event): Loop
    requires event.StatusArrives?
  {
    if loop.disposed then Settled(loop, false, false)
    else
      var told := Called(loop, StatusCalled(event.status), event.onStatus);
      if event.onStatus.throws then Settled(told, false, true)
      else if event.status.state == Complete then Finish(told, event.onComplete)
      else if event.status.state == Blocked || event.status.e2eeRecords == 0 || !Runnable(told, event.ready) then
        Settled(told, false, false)
      else if event.copyFails then Settled(told, false, true)
      else Logged(told.(stage := AwaitingBatch(event.status)), KeyCopied)
  }

  /** What the page is told after a batch. */
  function AfterBatch(status: Status, result: BatchResult): Status {
    Status(if result.complete then Complete else Running, result.remaining, status.migratedRecords + result.migrated)
  }

  /** The key is zeroed when the batch is dealt with, however it went. */
  function Zeroed(loop: Loop): Loop { Logged(loop, KeyZeroed) }

  function OnBatch(loop: Loop, event: Event): Loop
    requires event.BatchArrives? && loop.stage.AwaitingBatch?
  {
    if loop.disposed then Zeroed(Settled(loop, false, false))
    else
      var succeeded := Logged(loop.(conflictRetries := 0), BatchSucceeded);
      var told := Called(succeeded, StatusCalled(AfterBatch(loop.stage.status, event.result)), event.onStatus);
      if event.onStatus.throws then Zeroed(Settled(told, false, true))
      else if event.result.complete then Zeroed(Finish(told, event.onComplete))
      else Zeroed(Settled(told, true, false))
  }

  function Power2(n: nat): nat { if n == 0 then 1 else 2 * Power2(n - 1) }

  function OnConflict(loop: Loop): Loop {
    if loop.conflictRetries < MAX_CONFLICT_RETRIES && !loop.disposed then
      var delay := 50 * Power2(loop.conflictRetries);
      Zeroed(Settled(Logged(loop.(conflictRetries := loop.conflictRetries + 1, retryScheduled := true), TimerSet(delay)), false, false))
    else Zeroed(Settled(loop, false, true))
  }

  function OnSettle(loop: Loop, onError: Callback): Loop
    requires loop.stage.Settling?
  {
    var told := if loop.stage.failed && !loop.disposed then Called(loop, ErrorCalled, onError) else loop;
    told.(stage := Finalizing(loop.stage.repeat))
  }

  function OnFinalize(loop: Loop, ready: bool): Loop
    requires loop.stage.Finalizing?
  {
    var ended := Logged(loop.(running := false, stage := Idle), RunEnded);
    if loop.stage.repeat && Runnable(ended, ready) then Schedule(ended, ready) else ended
  }

  function OnTimer(loop: Loop, ready: bool): Loop {
    var fired := Logged(loop.(retryScheduled := false), TimerFired);
    if !fired.disposed && !fired.complete then Schedule(fired, ready) else fired
  }

  /** The loop after an event; an event that cannot happen now changes nothing. */
  function Apply(loop: Loop, event: Event): Loop {
    match event
    case Start(ready) =>
      if loop.started || loop.disposed then loop else Schedule(loop.(started := true), ready)
    case Wake(ready) => if loop.started && !loop.disposed then Schedule(loop, ready) else loop
    case StatusArrives(_, _, _, _, _) => if loop.stage.AwaitingStatus? then OnStatus(loop, event) else loop
    case StatusFails => if loop.stage.AwaitingStatus? then Settled(loop, false, true) else loop
    case BatchArrives(_, _, _) => if loop.stage.AwaitingBatch? then OnBatch(loop, event) else loop
    case BatchConflict => if loop.stage.AwaitingBatch? then OnConflict(loop) else loop
    case BatchFails => if loop.stage.AwaitingBatch? then Zeroed(Settled(loop, false, true)) else loop
    case Settle(onError) => if loop.stage.Settling? then OnSettle(loop, onError) else loop
    case Finalize(ready) => if loop.stage.Finalizing? then OnFinalize(loop, ready) else loop
    case TimerFires(ready) => if loop.retryScheduled then OnTimer(loop, ready) else loop
    case Dispose => DisposeLoop(loop)
  }

  function Run(events: seq<Event>): Loop {
    if events == [] then NEW else Apply(Run(events[..|events| - 1]), events[|events| - 1])
  }

  // -------------------------------------------------- what may stand in the log

  function RunsInFlight(log: seq<Entry>): int {
    if log == [] then 0
    else RunsInFlight(log[..|log| - 1]) + match log[|log| - 1] case RunStarted => 1 case RunEnded => -1 case _ => 0
  }

  function TimersPending(log: seq<Entry>): int {
    if log == [] then 0
    else
      TimersPending(log[..|log| - 1]) + match log[|log| - 1] case TimerSet(_) => 1 case TimerFired => -1 case TimerCleared => -1 case _ => 0
  }

  function KeysLive(log: seq<Entry>): int {
    if log == [] then 0
    else KeysLive(log[..|log| - 1]) + match log[|log| - 1] case KeyCopied => 1 case KeyZeroed => -1 case _ => 0
  }

  function RetriesSinceSuccess(log: seq<Entry>): nat {
    if log == [] then 0
    else
      match log[|log| - 1]
      case BatchSucceeded => 0
      case TimerSet(_) => RetriesSinceSuccess(log[..|log| - 1]) + 1
      case _ => RetriesSinceSuccess(log[..|log| - 1])
  }

  /** Whether the next thing may happen after what is logged. */
  predicate Allowed(log: seq<Entry>, entry: Entry) {
    match entry
    case RunStarted => RunsInFlight(log) == 0 && TimersPending(log) == 0 && Disposed !in log && CompleteCalled !in log
    case RunEnded => RunsInFlight(log) == 1 && KeysLive(log) == 0
    case StatusCalled(_) => RunsInFlight(log) == 1 && Disposed !in log && CompleteCalled !in log
    case CompleteCalled => Disposed !in log && CompleteCalled !in log
    case ErrorCalled => Disposed !in log
    case KeyCopied => RunsInFlight(log) == 1 && KeysLive(log) == 0 && TimersPending(log) == 0 && Disposed !in log
    case KeyZeroed => KeysLive(log) == 1
    case BatchSucceeded => KeysLive(log) == 1 && Disposed !in log
    case TimerSet(delay) =>
      && TimersPending(log) == 0 && RetriesSinceSuccess(log) < MAX_CONFLICT_RETRIES && Disposed !in log
      && delay == 50 * Power2(RetriesSinceSuccess(log))
    case TimerFired => TimersPending(log) == 1 && Disposed !in log
    case TimerCleared => TimersPending(log) == 1
    case Disposed => Disposed !in log
  }

  /** Everything in the log was allowed when it happened. */
  ghost predicate Safe(log: seq<Entry>) {
    forall k :: 0 <= k < |log| ==> Allowed(log[..k], log[k])
  }

  // ----------------------------------------------------------------- the invariant

  /** What the log adds up to. */
  datatype Summary = Summary(runs: int, timers: int, keys: int, retries: nat, disposed: bool, completed: bool)

  function SummaryOf(log: seq<Entry>): Summary {
    Summary(RunsInFlight(log), TimersPending(log), KeysLive(log), RetriesSinceSuccess(log), Disposed in log, CompleteCalled in log)
  }

  function Counted(s: Summary, entry: Entry): Summary {
    match entry
    case RunStarted => s.(runs := s.runs + 1)
    case RunEnded => s.(runs := s.runs - 1)
    case KeyCopied => s.(keys := s.keys + 1)
    case KeyZeroed => s.(keys := s.keys - 1)
    case BatchSucceeded => s.(retries := 0)
    case TimerSet(_) => s.(timers := s.timers + 1, retries := s.retries + 1)
    case TimerFired => s.(timers := s.timers - 1)
    case TimerCleared => s.(timers := s.timers - 1)
    case Disposed => s.(disposed := true)
    case CompleteCalled => s.(completed := true)
    case _ => s
  }

  predicate Permits(s: Summary, entry: Entry) {
    match entry
    case RunStarted => s.runs == 0 && s.timers == 0 && !s.disposed && !s.completed
    case RunEnded => s.runs == 1 && s.keys == 0
    case StatusCalled(_) => s.runs == 1 && !s.disposed && !s.completed
    case CompleteCalled => !s.disposed && !s.completed
    case ErrorCalled => !s.disposed
    case KeyCopied => s.runs == 1 && s.keys == 0 && s.timers == 0 && !s.disposed
    case KeyZeroed => s.keys == 1
    case BatchSucceeded => s.keys == 1 && !s.disposed
    case TimerSet(delay) => s.timers == 0 && s.retries < MAX_CONFLICT_RETRIES && !s.disposed && delay == 50 * Power2(s.retries)
    case TimerFired => s.timers == 1 && !s.disposed
    case TimerCleared => s.timers == 1
    case Disposed => !s.disposed
  }

  /** One more entry: the sums move on, and the log stays safe if they permit it. */
  lemma OneMore(log: seq<Entry>, entry: Entry)
    ensures SummaryOf(log + [entry]) == Counted(SummaryOf(log), entry)
    ensures Safe(log) && Permits(SummaryOf(log), entry) ==> Safe(log + [entry])
  {
    var all := log + [entry];
    assert all[..|log|] == log;
    hide Power2;
    if Safe(log) && Permits(SummaryOf(log), entry) {
      assert Allowed(log, entry);
      hide Allowed;
      forall k | 0 <= k < |all| ensures Allowed(all[..k], all[k]) {
        if k < |log| { assert all[..k] == log[..k]; }
      }
    }
  }

  /** What the fields say the log adds up to. */
  function Expected(loop: Loop): Summary {
    Summary(if loop.running then 1 else 0, if loop.retryScheduled then 1 else 0, if loop.stage.AwaitingBatch? then 1 else 0,
            loop.conflictRetries, loop.disposed, loop.complete)
  }

  /** A run in flight waits for no timer; a completed one does not repeat. */
  predicate Shaped(loop: Loop) {
    && (loop.running <==> !loop.stage.Idle?)
    && loop.conflictRetries <= MAX_CONFLICT_RETRIES
    && (loop.retryScheduled ==> !loop.disposed && !loop.complete)
    && match loop.stage
       case Idle => true
       case AwaitingStatus => !loop.retryScheduled
       case AwaitingBatch(_) => !loop.retryScheduled
       case Settling(repeat, _) => repeat ==> !loop.retryScheduled && !loop.complete
       case Finalizing(repeat) => repeat ==> !loop.retryScheduled && !loop.complete
  }

  /** The log is safe and the fields add up to it. */
  ghost predicate Fits(loop: Loop) {
    Shaped(loop) && SummaryOf(loop.log) == Expected(loop) && Safe(loop.log)
  }

  /** Between events, besides, no answer is awaited once complete. */
  ghost predicate Valid(loop: Loop) {
    Fits(loop) && (loop.stage.AwaitingStatus? || loop.stage.AwaitingBatch? ==> !loop.complete)
  }

  lemma ScheduleKeepsFit(loop: Loop, ready: bool)
    requires Fits(loop)
    ensures Fits(Schedule(loop, ready))
    ensures Schedule(loop, ready).stage.AwaitingBatch? ==> loop.stage.AwaitingBatch?
    ensures Schedule(loop, ready).complete == loop.complete
    ensures Schedule(loop, ready).stage.AwaitingStatus? ==> loop.stage.AwaitingStatus? || !loop.complete
  {
    OneMore(loop.log, RunStarted);
    hide SummaryOf, Safe;
  }

  lemma DisposeKeepsFit(loop: Loop)
    requires Fits(loop)
    ensures Fits(DisposeLoop(loop))
    ensures DisposeLoop(loop) == loop.(disposed := true, retryScheduled := false, log := DisposeLoop(loop).log)
  {
    OneMore(loop.log, Disposed);
    OneMore(loop.log + [Disposed], TimerCleared);
    hide SummaryOf, Safe;
  }

  lemma CalledKeepsFit(loop: Loop, entry: Entry, callback: Callback)
    requires Shaped(loop) && Safe(loop.log) && Permits(SummaryOf(loop.log), entry)
    requires Counted(SummaryOf(loop.log), entry) == Expected(loop)
    ensures Fits(Called(loop, entry, callback))
    ensures var called := Called(loop, entry, callback);
            called == loop.(disposed := called.disposed, retryScheduled := called.retryScheduled, log := called.log)
            && (called.retryScheduled ==> loop.retryScheduled) && (!callback.disposes ==> called.disposed == loop.disposed)
  {
    OneMore(loop.log, entry);
    hide SummaryOf, Safe, Counted, Permits;
    DisposeKeepsFit(Logged(loop, entry));
  }

  /** Once its key is dealt with a run may settle. */
  lemma SettledKeepsFit(loop: Loop, repeat: bool, failed: bool)
    requires Fits(loop) && loop.running && !loop.stage.AwaitingBatch?
    requires repeat ==> !loop.retryScheduled && !loop.complete
    ensures Fits(Settled(loop, repeat, failed))
  {
    hide SummaryOf, Safe;
  }

  lemma ZeroedKeepsFit(loop: Loop, repeat: bool, failed: bool)
    requires Fits(loop) && loop.stage.AwaitingBatch?
    requires repeat ==> !loop.retryScheduled && !loop.complete
    ensures Fits(Zeroed(Settled(loop, repeat, failed)))
  {
    OneMore(loop.log, KeyZeroed);
    hide SummaryOf, Safe;
  }

  lemma FinishKeepsFit(loop: Loop, callback: Callback)
    requires Fits(loop) && loop.stage.AwaitingStatus?
    ensures Valid(Finish(loop, callback))
  {
    hide SummaryOf, Safe;
    if loop.complete || loop.disposed {
      SettledKeepsFit(loop, false, false);
    } else {
      CalledKeepsFit(loop.(complete := true), CompleteCalled, callback);
      SettledKeepsFit(Called(loop.(complete := true), CompleteCalled, callback), false, callback.throws);
    }
  }

  lemma FinishBatchKeepsFit(loop: Loop, callback: Callback)
    requires Fits(loop) && loop.stage.AwaitingBatch?
    ensures Valid(Zeroed(Finish(loop, callback)))
  {
    hide SummaryOf, Safe;
    if loop.complete || loop.disposed {
      ZeroedKeepsFit(loop, false, false);
    } else {
      CalledKeepsFit(loop.(complete := true), CompleteCalled, callback);
      ZeroedKeepsFit(Called(loop.(complete := true), CompleteCalled, callback), false, callback.throws);
    }
  }

  lemma OnStatusKeepsValid(loop: Loop, event: Event)
    requires Valid(loop) && loop.stage.AwaitingStatus? && event.StatusArrives?
    ensures Valid(OnStatus(loop, event))
  {
    hide SummaryOf, Safe, Finish;
    if loop.disposed {
      SettledKeepsFit(loop, false, false);
    } else {
      CalledKeepsFit(loop, StatusCalled(event.status), event.onStatus);
      var told := Called(loop, StatusCalled(event.status), event.onStatus);
      hide Called;
      FinishKeepsFit(told, event.onComplete);
      SettledKeepsFit(told, false, true);
      SettledKeepsFit(told, false, false);
      OneMore(told.log, KeyCopied);
    }
  }

  lemma OnBatchKeepsValid(loop: Loop, event: Event)
    requires Valid(loop) && loop.stage.AwaitingBatch? && event.BatchArrives?
    ensures Valid(OnBatch(loop, event))
  {
    hide SummaryOf, Safe, Finish, AfterBatch;
    if loop.disposed {
      ZeroedKeepsFit(loop, false, false);
    } else {
      OneMore(loop.log, BatchSucceeded);
      var succeeded := Logged(loop.(conflictRetries := 0), BatchSucceeded);
      assert Fits(succeeded);
      CalledKeepsFit(succeeded, StatusCalled(AfterBatch(loop.stage.status, event.result)), event.onStatus);
      var told := Called(succeeded, StatusCalled(AfterBatch(loop.stage.status, event.result)), event.onStatus);
      hide Called, Zeroed;
      FinishBatchKeepsFit(told, event.onComplete);
      ZeroedKeepsFit(told, false, true);
      ZeroedKeepsFit(told, true, false);
    }
  }

  lemma OnConflictKeepsValid(loop: Loop)
    requires Valid(loop) && loop.stage.AwaitingBatch?
    ensures Valid(OnConflict(loop))
  {
    hide SummaryOf, Safe;
    OneMore(loop.log, KeyZeroed);
    OneMore(loop.log, TimerSet(50 * Power2(loop.conflictRetries)));
    OneMore(loop.log + [TimerSet(50 * Power2(loop.conflictRetries))], KeyZeroed);
    hide Power2;
  }

  lemma OnSettleKeepsValid(loop: Loop, onError: Callback)
    requires Valid(loop) && loop.stage.Settling?
    ensures Valid(OnSettle(loop, onError))
  {
    hide SummaryOf, Safe;
    if loop.stage.failed && !loop.disposed { CalledKeepsFit(loop, ErrorCalled, onError); }
    hide Called;
  }

  lemma OnFinalizeKeepsValid(loop: Loop, ready: bool)
    requires Valid(loop) && loop.stage.Finalizing?
    ensures Valid(OnFinalize(loop, ready))
  {
    hide SummaryOf, Safe;
    OneMore(loop.log, RunEnded);
    ScheduleKeepsFit(Logged(loop.(running := false, stage := Idle), RunEnded), ready);
    hide Schedule;
  }

  lemma OnTimerKeepsValid(loop: Loop, ready: bool)
    requires Valid(loop) && loop.retryScheduled
    ensures Valid(OnTimer(loop, ready))
  {
    hide SummaryOf, Safe;
    OneMore(loop.log, TimerFired);
    ScheduleKeepsFit(Logged(loop.(retryScheduled := false), TimerFired), ready);
    hide Schedule;
  }

  lemma ApplyKeepsValid(loop: Loop, event: Event)
    requires Valid(loop)
    ensures Valid(Apply(loop, event))
  {
    hide SummaryOf, Safe, OnStatus, OnBatch, OnConflict, OnSettle, OnFinalize, OnTimer, Schedule, DisposeLoop;
    match event
    case Start(ready) => ScheduleKeepsFit(loop.(started := true), ready);
    case Wake(ready) => ScheduleKeepsFit(loop, ready);
    case StatusArrives(_, _, _, _, _) => if loop.stage.AwaitingStatus? { OnStatusKeepsValid(loop, event); }
    case StatusFails => if loop.stage.AwaitingStatus? { SettledKeepsFit(loop, false, true); }
    case BatchArrives(_, _, _) => if loop.stage.AwaitingBatch? { OnBatchKeepsValid(loop, event); }
    case BatchConflict => if loop.stage.AwaitingBatch? { OnConflictKeepsValid(loop); }
    case BatchFails => if loop.stage.AwaitingBatch? { ZeroedKeepsFit(loop, false, true); }
    case Settle(onError) => if loop.stage.Settling? { OnSettleKeepsValid(loop, onError); }
    case Finalize(ready) => if loop.stage.Finalizing? { OnFinalizeKeepsValid(loop, ready); }
    case TimerFires(ready) => if loop.retryScheduled { OnTimerKeepsValid(loop, ready); }
    case Dispose => DisposeKeepsFit(loop);
  }

  /** In every interleaving of events nothing happens that the log did not allow. */
  lemma {:induction false} EveryRunIsSafe(events: seq<Event>)
    ensures Valid(Run(events)) && Safe(Run(events).log)
    decreases |events|
  {
    if events != [] {
      EveryRunIsSafe(events[..|events| - 1]);
      hide Apply, SummaryOf, Safe;
      ApplyKeepsValid(Run(events[..|events| - 1]), events[|events| - 1]);
    }
  }

  predicate IsCallback(entry: Entry) { entry.StatusCalled? || entry.CompleteCalled? || entry.ErrorCalled? }

  lemma {:induction false} SafePrefix(log: seq<Entry>, n: nat)
    requires Safe(log) && n <= |log|
    ensures Safe(log[..n])
  {
    forall k | 0 <= k < n ensures Allowed(log[..n][..k], log[..n][k]) {
      assert log[..n][..k] == log[..k];
    }
  }

  lemma {:induction false} SafeSums(log: seq<Entry>)
    requires Safe(log)
    ensures 0 <= RunsInFlight(log) <= 1 && 0 <= TimersPending(log) <= 1 && 0 <= KeysLive(log) <= 1
    ensures RetriesSinceSuccess(log) <= MAX_CONFLICT_RETRIES
    ensures KeysLive(log) <= RunsInFlight(log)
    decreases |log|
  {
    if log != [] {
      var last := |log| - 1;
      SafePrefix(log, last);
      SafeSums(log[..last]);
      assert Allowed(log[..last], log[last]);
    }
  }

  /**
   * What every interleaving guarantees at every moment: at most one run, one timer and one key; no run starts
   * while a timer is pending; completion is reported once; nothing is reported after disposal; at most three
   * retries between successful batches; every key is zeroed by the time its run ends.
   */
  lemma EveryMomentIsSafe(events: seq<Event>, n: nat)
    requires n < |Run(events).log|
    ensures var (log, entry) := (Run(events).log[..n], Run(events).log[n]);
            && 0 <= RunsInFlight(log) <= 1 && 0 <= TimersPending(log) <= 1 && 0 <= KeysLive(log) <= 1
            && RetriesSinceSuccess(log) <= 3
            && (entry.TimerSet? ==> entry.delayMs == match RetriesSinceSuccess(log) case 0 => 50 case 1 => 100 case _ => 200)
            && (entry == RunStarted ==> TimersPending(log) == 0 && RunsInFlight(log) == 0)
            && (entry == RunEnded ==> KeysLive(log) == 0)
            && (entry == CompleteCalled ==> CompleteCalled !in log)
            && (IsCallback(entry) ==> Disposed !in log)
  {
    EveryRunIsSafe(events);
    var log := Run(events).log;
    hide Run;
    SafePrefix(log, n);
    SafeSums(log[..n]);
    assert Allowed(log[..n], log[n]);
    assert Power2(1) == 2 && Power2(2) == 4;
  }

  // --------------------------------------------------------- nothing is dropped

  const QUIET: Callback := Callback(false, false)

  /** A request that fails in a loop still wanted reaches the page as one error, and the loop is free again. */
  lemma FailureIsReported(loop: Loop, ready: bool)
    requires Valid(loop) && (loop.stage.AwaitingStatus? || loop.stage.AwaitingBatch?) && !loop.disposed
    ensures var failed := Apply(loop, if loop.stage.AwaitingStatus? then StatusFails else BatchFails);
            var after := Apply(Apply(failed, Settle(QUIET)), Finalize(ready));
            && after.stage == Idle && !after.running
            && after.log == loop.log + (if loop.stage.AwaitingBatch? then [KeyZeroed] else []) + [ErrorCalled, RunEnded]
  {
    hide SummaryOf, Safe;
  }

  /** A conflict is retried after its delay while three are not used up, and is reported as an error after that. */
  lemma ConflictIsRetriedOrReported(loop: Loop)
    requires Valid(loop) && loop.stage.AwaitingBatch? && !loop.disposed
    ensures var ended := Apply(Apply(Apply(loop, BatchConflict), Settle(QUIET)), Finalize(true));
            && ended.stage == Idle
            && if loop.conflictRetries < 3 then
                 var fired := Apply(ended, TimerFires(true));
                 var delay := match loop.conflictRetries case 0 => 50 case 1 => 100 case _ => 200;
                 && ended.log == loop.log + [TimerSet(delay), KeyZeroed, RunEnded]
                 && fired.stage == AwaitingStatus && fired.log == ended.log + [TimerFired, RunStarted]
               else ended.log == loop.log + [KeyZeroed, ErrorCalled, RunEnded]
  {
    hide SummaryOf, Safe;
    assert Power2(1) == 2 && Power2(2) == 4;
  }

  /** After a batch that leaves rows the loop goes on at once if the page is ready; after the last one it completes and stops. */
  lemma BatchLeadsOn(loop: Loop, result: BatchResult, ready: bool)
    requires Valid(loop) && loop.stage.AwaitingBatch? && !loop.disposed
    ensures var before := loop.stage.status;
            var told := Status(if result.complete then Complete else Running, result.remaining, before.migratedRecords + result.migrated);
            var after := Apply(Apply(Apply(loop, BatchArrives(result, QUIET, QUIET)), Settle(QUIET)), Finalize(ready));
            if result.complete then
              && after.complete && after.stage == Idle
              && after.log == loop.log + [BatchSucceeded, StatusCalled(told), CompleteCalled, KeyZeroed, RunEnded]
            else if ready then
              && after.stage == AwaitingStatus
              && after.log == loop.log + [BatchSucceeded, StatusCalled(told), KeyZeroed, RunEnded, RunStarted]
            else
              && after.stage == Idle
              && after.log == loop.log + [BatchSucceeded, StatusCalled(told), KeyZeroed, RunEnded]
  {
    hide SummaryOf, Safe;
  }

  /**
   * A complete status ends the loop. One that is pending or running and leaves rows leads to a batch if the page is
   * ready, unless the key cannot be copied. Any other only ends the run.
   */
  lemma StatusLeadsOn(loop: Loop, status: Status, ready: bool, copyFails: bool)
    requires Valid(loop) && loop.stage.AwaitingStatus? && !loop.disposed
    ensures var replied := Apply(loop, StatusArrives(status, QUIET, QUIET, ready, copyFails));
            var after := Apply(Apply(replied, Settle(QUIET)), Finalize(ready));
            if status.state == Complete then
              after.complete && after.stage == Idle && after.log == loop.log + [StatusCalled(status), CompleteCalled, RunEnded]
            else if status.state == Blocked || status.e2eeRecords == 0 || !ready then
              !after.complete && after.stage == Idle && after.log == loop.log + [StatusCalled(status), RunEnded]
            else if copyFails then
              !after.complete && after.stage == Idle && after.log == loop.log + [StatusCalled(status), ErrorCalled, RunEnded]
            else
              replied.stage == AwaitingBatch(status) && replied.log == loop.log + [StatusCalled(status), KeyCopied]
  {
    hide SummaryOf, Safe;
  }

  /** A status callback that throws turns the run into an error. */
  lemma ThrowingStatusIsReported(loop: Loop, status: Status, ready: bool)
    requires Valid(loop) && loop.stage.AwaitingStatus? && !loop.disposed
    ensures var after := Apply(Apply(Apply(loop, StatusArrives(status, Callback(false, true), QUIET, ready, false)), Settle(QUIET)), Finalize(ready));
            after.stage == Idle && !after.complete && after.log == loop.log + [StatusCalled(status), ErrorCalled, RunEnded]
  {
    hide SummaryOf, Safe;
  }

  /** One that disposes the loop ends the run without another word. */
  lemma DisposingStatusEndsRun(loop: Loop, status: Status, throws: bool, ready: bool)
    requires Valid(loop) && loop.stage.AwaitingStatus? && !loop.disposed
    ensures var after := Apply(Apply(Apply(loop, StatusArrives(status, Callback(true, throws), QUIET, ready, false)), Settle(QUIET)), Finalize(ready));
            after.stage == Idle && after.disposed && !after.complete && after.log == loop.log + [StatusCalled(status), Disposed, RunEnded]
  {
    hide SummaryOf, Safe;
  }

  /** So after a batch, whose key is zeroed first. */
  lemma ThrowingBatchIsReported(loop: Loop, result: BatchResult, ready: bool)
    requires Valid(loop) && loop.stage.AwaitingBatch? && !loop.disposed
    ensures var replied := Apply(loop, BatchArrives(result, Callback(false, true), QUIET));
            var told := Status(if result.complete then Complete else Running, result.remaining, loop.stage.status.migratedRecords + result.migrated);
            && replied.log == loop.log + [BatchSucceeded, StatusCalled(told), KeyZeroed] && !replied.complete && !replied.disposed
            && replied.stage == Settling(false, true)
  {
    hide SummaryOf, Safe;
  }

  lemma DisposingBatchEndsRun(loop: Loop, result: BatchResult, throws: bool)
    requires Valid(loop) && loop.stage.AwaitingBatch? && !loop.disposed
    ensures var replied := Apply(loop, BatchArrives(result, Callback(true, throws), QUIET));
            var told := Status(if result.complete then Complete else Running, result.remaining, loop.stage.status.migratedRecords + result.migrated);
            replied.log == loop.log + [BatchSucceeded, StatusCalled(told), Disposed, KeyZeroed] && !replied.complete && replied.disposed
  {
    hide SummaryOf, Safe;
  }

  /** A run that has failed is reported, unless the loop is disposed, and every settled run ends. */
  lemma SettledRunEnds(loop: Loop, onError: Callback, ready: bool)
    requires Valid(loop) && loop.stage.Settling? && !loop.stage.repeat
    ensures var after := Apply(Apply(loop, Settle(onError)), Finalize(ready));
            && after.stage == Idle && !after.running && after.disposed == (loop.disposed || (loop.stage.failed && onError.disposes))
            && (!loop.stage.failed || loop.disposed ==> after.log == loop.log + [RunEnded])
            && (loop.stage.failed && !loop.disposed && !onError.disposes ==> after.log == loop.log + [ErrorCalled, RunEnded])
  {
    hide SummaryOf, Safe;
  }

  /** Completing is reported once even if the callback throws, which is reported as an error. */
  lemma ThrowingCompletionIsReported(loop: Loop, status: Status, ready: bool)
    requires Valid(loop) && loop.stage.AwaitingStatus? && !loop.disposed && status.state == Complete
    ensures var after := Apply(Apply(Apply(loop, StatusArrives(status, QUIET, Callback(false, true), ready, false)), Settle(QUIET)), Finalize(ready));
            after.complete && after.stage == Idle && after.log == loop.log + [StatusCalled(status), CompleteCalled, ErrorCalled, RunEnded]
  {
    hide SummaryOf, Safe;
  }

  /** After disposal an event zeroes a key or ends a run, and does nothing else that shows. */
  lemma DisposedIsQuiet(loop: Loop, event: Event)
    requires Valid(loop) && loop.disposed
    ensures var after := Apply(loop, event);
            && after.disposed && after.complete == loop.complete
            && after.log in {loop.log, loop.log + [KeyZeroed], loop.log + [RunEnded]}
  {
    hide SummaryOf, Safe;
  }

  /** Being woken starts a run exactly when nothing is in flight, pending or finished and the page is ready. */
  lemma WakeStartsRun(loop: Loop, ready: bool)
    requires Valid(loop) && loop.started && !loop.disposed
    ensures Apply(loop, Wake(ready)) ==
      if ready && loop.stage == Idle && !loop.complete && !loop.retryScheduled
      then loop.(running := true, stage := AwaitingStatus, log := loop.log + [RunStarted])
      else loop
  {
    hide SummaryOf, Safe;
  }

  /** Nothing runs before the start, which counts once. */
  lemma StartStartsOnce(ready: bool, again: bool)
    ensures Apply(NEW, Wake(again)) == NEW
    ensures var loop := Apply(NEW, Start(ready));
            && loop.started && !loop.disposed && Apply(loop, Start(again)) == loop
            && loop.log == (if ready then [RunStarted] else []) && loop.stage == (if ready then AwaitingStatus else Idle)
    ensures Apply(Apply(NEW, Dispose), Start(ready)) == Apply(NEW, Dispose)
  {
  }

  // -------------------------------------------------------------- what leads to a batch

  /** The status the page was told last. */
  function LastTold(log: seq<Entry>): Option<Status> {
    if log == [] then None
    else if log[|log| - 1].StatusCalled? then Some(log[|log| - 1].status)
    else LastTold(log[..|log| - 1])
  }

  /** A migration under way, with rows left. */
  predicate WantsBatch(told: Option<Status>) {
    told.Some? && (told.value.state == Pending || told.value.state == Running) && told.value.e2eeRecords > 0
  }

  /** A key is copied only after such a status. */
  ghost predicate CopiesAreWanted(log: seq<Entry>) {
    forall k :: 0 <= k < |log| && log[k] == KeyCopied ==> WantsBatch(LastTold(log[..k]))
  }

  lemma WantedNext(log: seq<Entry>, entry: Entry)
    requires CopiesAreWanted(log) && (entry == KeyCopied ==> WantsBatch(LastTold(log)))
    ensures CopiesAreWanted(log + [entry])
    ensures entry.StatusCalled? ==> LastTold(log + [entry]) == Some(entry.status)
  {
    var all := log + [entry];
    assert all[..|log|] == log;
    hide LastTold, WantsBatch;
    forall k | 0 <= k < |all| && all[k] == KeyCopied ensures WantsBatch(LastTold(all[..k])) {
      if k < |log| { assert all[..k] == log[..k]; }
    }
  }

  lemma DisposeKeepsWanted(loop: Loop)
    requires CopiesAreWanted(loop.log)
    ensures CopiesAreWanted(DisposeLoop(loop).log)
  {
    WantedNext(loop.log, Disposed);
    WantedNext(loop.log + [Disposed], TimerCleared);
    hide CopiesAreWanted;
  }

  lemma CallKeepsWanted(loop: Loop, entry: Entry, callback: Callback)
    requires CopiesAreWanted(loop.log) && entry != KeyCopied
    ensures CopiesAreWanted(Called(loop, entry, callback).log)
    ensures !Called(loop, entry, callback).disposed ==> Called(loop, entry, callback).log == loop.log + [entry]
  {
    WantedNext(loop.log, entry);
    DisposeKeepsWanted(Logged(loop, entry));
    hide CopiesAreWanted;
  }

  lemma ScheduleKeepsWanted(loop: Loop, ready: bool)
    requires CopiesAreWanted(loop.log)
    ensures CopiesAreWanted(Schedule(loop, ready).log)
  {
    WantedNext(loop.log, RunStarted);
    hide CopiesAreWanted;
  }

  lemma FinishKeepsWanted(loop: Loop, callback: Callback)
    requires CopiesAreWanted(loop.log)
    ensures CopiesAreWanted(Finish(loop, callback).log) && CopiesAreWanted(Zeroed(Finish(loop, callback)).log)
  {
    CallKeepsWanted(loop.(complete := true), CompleteCalled, callback);
    hide CopiesAreWanted, Called;
    WantedNext(Finish(loop, callback).log, KeyZeroed);
  }

  lemma OnStatusKeepsWanted(loop: Loop, event: Event)
    requires CopiesAreWanted(loop.log) && event.StatusArrives?
    ensures CopiesAreWanted(OnStatus(loop, event).log)
  {
    var told := Called(loop, StatusCalled(event.status), event.onStatus);
    CallKeepsWanted(loop, StatusCalled(event.status), event.onStatus);
    WantedNext(loop.log, StatusCalled(event.status));
    FinishKeepsWanted(told, event.onComplete);
    hide CopiesAreWanted, Called, Finish, LastTold;
    if !told.disposed && WantsBatch(Some(event.status)) { WantedNext(told.log, KeyCopied); }
  }

  lemma OnBatchKeepsWanted(loop: Loop, event: Event)
    requires CopiesAreWanted(loop.log) && event.BatchArrives? && loop.stage.AwaitingBatch?
    ensures CopiesAreWanted(OnBatch(loop, event).log)
  {
    WantedNext(loop.log, KeyZeroed);
    WantedNext(loop.log, BatchSucceeded);
    var succeeded := Logged(loop.(conflictRetries := 0), BatchSucceeded);
    var entry := StatusCalled(AfterBatch(loop.stage.status, event.result));
    CallKeepsWanted(succeeded, entry, event.onStatus);
    var told := Called(succeeded, entry, event.onStatus);
    WantedNext(told.log, KeyZeroed);
    FinishKeepsWanted(told, event.onComplete);
    hide CopiesAreWanted, Called, Finish, AfterBatch;
  }

  lemma ApplyKeepsWanted(loop: Loop, event: Event)
    requires CopiesAreWanted(loop.log)
    ensures CopiesAreWanted(Apply(loop, event).log)
  {
    hide CopiesAreWanted, OnStatus, OnBatch, Schedule, DisposeLoop, Called, Power2;
    match event
    case Start(ready) => ScheduleKeepsWanted(loop.(started := true), ready);
    case Wake(ready) => ScheduleKeepsWanted(loop, ready);
    case StatusArrives(_, _, _, _, _) => OnStatusKeepsWanted(loop, event);
    case BatchArrives(_, _, _) => if loop.stage.AwaitingBatch? { OnBatchKeepsWanted(loop, event); }
    case BatchConflict =>
      WantedNext(loop.log, TimerSet(50 * Power2(loop.conflictRetries)));
      WantedNext(loop.log + [TimerSet(50 * Power2(loop.conflictRetries))], KeyZeroed);
      WantedNext(loop.log, KeyZeroed);
    case BatchFails => WantedNext(loop.log, KeyZeroed);
    case Settle(onError) => CallKeepsWanted(loop, ErrorCalled, onError);
    case Finalize(ready) =>
      WantedNext(loop.log, RunEnded);
      ScheduleKeepsWanted(Logged(loop.(running := false, stage := Idle), RunEnded), ready);
    case TimerFires(ready) =>
      WantedNext(loop.log, TimerFired);
      ScheduleKeepsWanted(Logged(loop.(retryScheduled := false), TimerFired), ready);
    case Dispose => DisposeKeepsWanted(loop);
    case _ =>
  }

  lemma {:induction false} CopiesOfRunAreWanted(events: seq<Event>)
    ensures CopiesAreWanted(Run(events).log)
    decreases |events|
  {
    if events != [] {
      CopiesOfRunAreWanted(events[..|events| - 1]);
      hide Apply, CopiesAreWanted;
      ApplyKeepsWanted(Run(events[..|events| - 1]), events[|events| - 1]);
    }
  }

  /**
   * Whenever, in any interleaving, a key is copied for a batch, the page was last told of a migration that is pending
   * or running and has rows left.
   */
  lemma BatchFollowsStatus(events: seq<Event>, n: nat)
    requires n < |Run(events).log| && Run(events).log[n] == KeyCopied
    ensures var told := LastTold(Run(events).log[..n]);
            told.Some? && told.value.state != Blocked && told.value.state != Complete && told.value.e2eeRecords > 0
  {
    hide Run, LastTold;
    CopiesOfRunAreWanted(events);
  }

  // ------------------------------------------------------------------ a whole migration

  function ApplyAll(loop: Loop, events: seq<Event>): Loop
    decreases |events|
  {
    if events == [] then loop else ApplyAll(Apply(loop, events[0]), events[1..])
  }

  /** A run is its events one after the other, from a new loop on. */
  lemma {:induction false} RunGoesOn(events: seq<Event>, more: seq<Event>)
    ensures Run(events + more) == ApplyAll(Run(events), more) && Run([]) == NEW
    decreases |more|
  {
    hide Apply;
    if more == [] {
      assert events + more == events;
    } else {
      assert events + more == (events + [more[0]]) + more[1..];
      assert (events + [more[0]])[..|events|] == events;
      RunGoesOn(events + [more[0]], more[1..]);
    }
  }

  /** The server's answers in one round: a status with rows left, and the outcome of the batch sent upon it. */
  datatype Round = Round(status: Status, result: BatchResult)

  /** The page is there, its callbacks do nothing else, and every batch is answered; only the last one completes. */
  predicate Proceeds(rounds: seq<Round>) {
    && rounds != []
    && (forall k :: 0 <= k < |rounds| ==> WantsBatch(Some(rounds[k].status)))
    && forall k :: 0 <= k < |rounds| ==> (rounds[k].result.complete <==> k == |rounds| - 1)
  }

  function RoundEvents(round: Round): seq<Event> {
    [StatusArrives(round.status, QUIET, QUIET, true, false), BatchArrives(round.result, QUIET, QUIET), Settle(QUIET), Finalize(true)]
  }

  function RoundEntries(round: Round): seq<Entry> {
    var told := Status(if round.result.complete then Complete else Running, round.result.remaining, round.status.migratedRecords + round.result.migrated);
    [StatusCalled(round.status), KeyCopied, BatchSucceeded, StatusCalled(told)]
    + if round.result.complete then [CompleteCalled, KeyZeroed, RunEnded] else [KeyZeroed, RunEnded, RunStarted]
  }

  function AllEvents(rounds: seq<Round>): seq<Event> { if rounds == [] then [] else RoundEvents(rounds[0]) + AllEvents(rounds[1..]) }

  function AllEntries(rounds: seq<Round>): seq<Entry> { if rounds == [] then [] else RoundEntries(rounds[0]) + AllEntries(rounds[1..]) }

  lemma RoundGoes(loop: Loop, round: Round)
    requires Valid(loop) && loop.stage.AwaitingStatus? && !loop.disposed && WantsBatch(Some(round.status))
    ensures var after := ApplyAll(loop, RoundEvents(round));
            && Valid(after) && !after.disposed && after.log == loop.log + RoundEntries(round)
            && (if round.result.complete then after.complete && after.stage == Idle else after.stage == AwaitingStatus)
  {
    hide Apply, Valid, ApplyAll, LastTold, WantsBatch;
    var (status, result) := (round.status, round.result);
    var replied := Apply(loop, StatusArrives(status, QUIET, QUIET, true, false));
    ApplyFour(loop, StatusArrives(status, QUIET, QUIET, true, false), BatchArrives(result, QUIET, QUIET), Settle(QUIET), Finalize(true));
    AllKeepsValid(loop, RoundEvents(round));
    RepliedStands(loop, status);
    BatchLeadsOn(replied, result, true);
    BatchDisposesNothing(replied, result);
  }

  lemma {:induction false} AllKeepsValid(loop: Loop, events: seq<Event>)
    requires Valid(loop)
    ensures Valid(ApplyAll(loop, events))
    decreases |events|
  {
    hide Apply, Valid;
    if events != [] {
      ApplyKeepsValid(loop, events[0]);
      AllKeepsValid(Apply(loop, events[0]), events[1..]);
    }
  }

  lemma ApplyFour(loop: Loop, a: Event, b: Event, c: Event, d: Event)
    ensures ApplyAll(loop, [a, b, c, d]) == Apply(Apply(Apply(Apply(loop, a), b), c), d)
  {
    hide Apply;
    assert [a, b, c, d][1..] == [b, c, d] && [b, c, d][1..] == [c, d] && [c, d][1..] == [d] && [d][1..] == [];
    var last := Apply(Apply(Apply(loop, a), b), c);
    assert ApplyAll(last, [d]) == Apply(last, d);
    assert ApplyAll(Apply(Apply(loop, a), b), [c, d]) == ApplyAll(last, [d]);
    assert ApplyAll(Apply(loop, a), [b, c, d]) == ApplyAll(Apply(Apply(loop, a), b), [c, d]);
  }

  lemma RepliedStands(loop: Loop, status: Status)
    requires Valid(loop) && loop.stage.AwaitingStatus? && !loop.disposed && WantsBatch(Some(status))
    ensures var replied := Apply(loop, StatusArrives(status, QUIET, QUIET, true, false));
            && Valid(replied) && replied.stage == AwaitingBatch(status) && !replied.disposed
            && replied.log == loop.log + [StatusCalled(status), KeyCopied]
  {
    ApplyKeepsValid(loop, StatusArrives(status, QUIET, QUIET, true, false));
    hide SummaryOf, Safe;
  }

  lemma BatchDisposesNothing(loop: Loop, result: BatchResult)
    requires Valid(loop) && loop.stage.AwaitingBatch? && !loop.disposed
    ensures !Apply(Apply(Apply(loop, BatchArrives(result, QUIET, QUIET)), Settle(QUIET)), Finalize(true)).disposed
  {
    hide SummaryOf, Safe;
  }

  lemma {:induction false} ApplyAllConcat(loop: Loop, a: seq<Event>, b: seq<Event>)
    ensures ApplyAll(loop, a + b) == ApplyAll(ApplyAll(loop, a), b)
    decreases |a|
  {
    hide Apply;
    if a == [] {
      assert a + b == b;
    } else {
      assert (a + b)[1..] == a[1..] + b;
      ApplyAllConcat(Apply(loop, a[0]), a[1..], b);
    }
  }

  lemma {:induction false} RoundsGoOn(loop: Loop, rounds: seq<Round>)
    requires Valid(loop) && loop.stage.AwaitingStatus? && !loop.disposed && Proceeds(rounds)
    ensures var after := ApplyAll(loop, AllEvents(rounds));
            after.complete && after.stage == Idle && after.log == loop.log + AllEntries(rounds)
    decreases |rounds|
  {
    hide Valid, Apply, RoundEvents, RoundEntries;
    RoundGoes(loop, rounds[0]);
    ApplyAllConcat(loop, RoundEvents(rounds[0]), AllEvents(rounds[1..]));
    var next := ApplyAll(loop, RoundEvents(rounds[0]));
    if |rounds| == 1 {
      assert AllEvents(rounds[1..]) == [] && AllEntries(rounds[1..]) == [];
    } else {
      assert !rounds[0].result.complete;
      assert forall k :: 0 <= k < |rounds| - 1 ==> rounds[1..][k] == rounds[k + 1];
      RoundsGoOn(next, rounds[1..]);
      assert (loop.log + RoundEntries(rounds[0])) + AllEntries(rounds[1..]) == loop.log + AllEntries(rounds);
    }
  }

  /**
   * From its start a loop that is answered goes through one round after the other, each with a key of its own that is
   * zeroed at its end, tells the page before and after every batch, and completes with the last one.
   */
  lemma WholeMigration(rounds: seq<Round>)
    requires Proceeds(rounds)
    ensures var after := Run([Start(true)] + AllEvents(rounds));
            after.complete && after.stage == Idle && after.log == [RunStarted] + AllEntries(rounds)
  {
    RunGoesOn([], [Start(true)]);
    assert [] + [Start(true)] == [Start(true)] && [Start(true)][1..] == [];
    assert Run([Start(true)]) == Apply(NEW, Start(true));
    StartStartsOnce(true, true);
    EveryRunIsSafe([Start(true)]);
    hide Apply, Run, Valid, Safe, AllEvents, AllEntries, Proceeds;
    RunGoesOn([Start(true)], AllEvents(rounds));
    RoundsGoOn(Apply(NEW, Start(true)), rounds);
  }

  // ------------------------------------------------------------------- the loop

  class E2eeToManagedLoop {
    var started: bool
    var disposed: bool
    var running: bool
    var complete: bool
    var conflictRetries: nat
    var retryScheduled: bool
    var stage: Stage
    ghost var log: seq<Entry>

    ghost function View(): Loop reads this {
      Loop(started, disposed, running, complete, conflictRetries, retryScheduled, stage, log)
    }

    constructor ()
      ensures View() == NEW
    {
      started, disposed, running, complete, retryScheduled := false, false, false, false, false;
      conflictRetries, stage, log := 0, Idle, [];
    }

    predicate CanRun(ready: bool) reads this { !disposed && !complete && !retryScheduled && ready }

    method ScheduleRun(ready: bool)
      modifies this
      ensures View() == Schedule(old(View()), ready)
    {
      if !CanRun(ready) || running { return; }
      running, stage := true, AwaitingStatus;
      log := log + [RunStarted];
    }

    method StartLoop(ready: bool)
      modifies this
      ensures View() == Apply(old(View()), Start(ready))
    {
      if started || disposed { return; }
      started := true;
      ScheduleRun(ready);
    }

    method DisposeNow()
      modifies this
      ensures View() == DisposeLoop(old(View()))
    {
      if disposed { return; }
      disposed := true;
      log := log + [Disposed];
      if retryScheduled {
        retryScheduled := false;
        log := log + [TimerCleared];
      }
    }

    /** Calls back; the callback may dispose the loop before it returns. */
    method Call(ghost entry: Entry, callback: Callback)
      modifies this
      ensures View() == Called(old(View()), entry, callback)
    {
      log := log + [entry];
      if callback.disposes { DisposeNow(); }
    }

    /** Whether completing failed the run. */
    method FinishRun(onComplete: Callback) returns (failed: bool)
      modifies this
      ensures View().(stage := Settling(false, failed)) == Finish(old(View()), onComplete)
      ensures stage == old(stage)
    {
      if complete || disposed { return false; }
      complete := true;
      Call(CompleteCalled, onComplete);
      return onComplete.throws;
    }

    method StatusReply(status: Status, onStatus: Callback, onComplete: Callback, ready: bool, copyFails: bool)
      requires stage.AwaitingStatus?
      modifies this
      ensures View() == Apply(old(View()), StatusArrives(status, onStatus, onComplete, ready, copyFails))
    {
      if disposed { stage := Settling(false, false); return; }
      Call(StatusCalled(status), onStatus);
      if onStatus.throws { stage := Settling(false, true); return; }
      if status.state == Complete {
        var failed := FinishRun(onComplete);
        stage := Settling(false, failed);
        return;
      }
      if status.state == Blocked || status.e2eeRecords == 0 || !CanRun(ready) { stage := Settling(false, false); return; }
      if copyFails { stage := Settling(false, true); return; }
      stage := AwaitingBatch(status);
      log := log + [KeyCopied];
    }

    method BatchReply(result: BatchResult, onStatus: Callback, onComplete: Callback)
      requires stage.AwaitingBatch?
      modifies this
      ensures View() == Apply(old(View()), BatchArrives(result, onStatus, onComplete))
    {
      hide DisposeLoop, Called, Finish, AfterBatch;
      if disposed {
        stage := Settling(false, false);
        log := log + [KeyZeroed];
        return;
      }
      var told := AfterBatch(stage.status, result);
      conflictRetries := 0;
      log := log + [BatchSucceeded];
      TellBatch(told, result.complete, onStatus, onComplete);
      log := log + [KeyZeroed];
    }

    /** Reports a batch that went through, and completes after the last one. */
    method TellBatch(told: Status, last: bool, onStatus: Callback, onComplete: Callback)
      modifies this
      ensures var after := Called(old(View()), StatusCalled(told), onStatus);
        View() ==
          if onStatus.throws then Settled(after, false, true)
          else if last then Finish(after, onComplete)
          else Settled(after, true, false)
    {
      hide DisposeLoop, Called, Finish;
      Call(StatusCalled(told), onStatus);
      if onStatus.throws { stage := Settling(false, true); return; }
      if last {
        var failed := FinishRun(onComplete);
        stage := Settling(false, failed);
        return;
      }
      stage := Settling(true, false);
    }

    method BatchConflicts() returns (delayMs: Option<nat>)
      requires stage.AwaitingBatch?
      modifies this
      ensures View() == Apply(old(View()), BatchConflict)
      ensures delayMs.Some? <==> retryScheduled && !old(retryScheduled)
    {
      delayMs := None;
      if conflictRetries < MAX_CONFLICT_RETRIES && !disposed {
        conflictRetries := conflictRetries + 1;
        var delay := 50 * Power2(conflictRetries - 1);
        if !retryScheduled { delayMs := Some(delay); }
        retryScheduled := true;
        log := log + [TimerSet(delay)];
        stage := Settling(false, false);
      } else {
        stage := Settling(false, true);
      }
      log := log + [KeyZeroed];
    }

    method RequestFails()
      requires stage.AwaitingStatus? || stage.AwaitingBatch?
      modifies this
      ensures View() == Apply(old(View()), if old(stage).AwaitingStatus? then StatusFails else BatchFails)
    {
      if stage.AwaitingBatch? { log := log + [KeyZeroed]; }
      stage := Settling(false, true);
    }

    method RunSettles(onError: Callback)
      requires stage.Settling?
      modifies this
      ensures View() == Apply(old(View()), Settle(onError))
    {
      var repeat := stage.repeat;
      if stage.failed && !disposed { Call(ErrorCalled, onError); }
      stage := Finalizing(repeat);
    }

    method RunEnds(ready: bool)
      requires stage.Finalizing?
      modifies this
      ensures View() == Apply(old(View()), Finalize(ready))
    {
      var repeat := stage.repeat;
      running, stage := false, Idle;
      log := log + [RunEnded];
      if repeat && CanRun(ready) { ScheduleRun(ready); }
    }

    method RetryTimerFires(ready: bool)
      modifies this
      ensures View() == Apply(old(View()), TimerFires(ready))
    {
      if !retryScheduled { return; }
      retryScheduled := false;
      log := log + [TimerFired];
      if !disposed && !complete { ScheduleRun(ready); }
    }
  }

  // ------------------------------------------------------- the completion boundary

  /** Shared by every path that can find the migration complete. */
  class CompletionBoundary {
    var complete: bool
    /** How often completion was reported, and how often a key was handed on. */
    ghost var completions: nat
    ghost var unlocks: nat

    ghost predicate Valid() reads this { completions == if complete then 1 else 0 }

    constructor ()
      ensures Valid() && !complete
    {
      complete, completions, unlocks := false, 0, 0;
    }

    /** Only the first call reports. */
    method Finish() returns (first: bool)
      requires Valid()
      modifies this
      ensures Valid() && complete && first == !old(complete) && unlocks == old(unlocks)
    {
      if complete { return false; }
      complete := true;
      completions := completions + 1;
      return true;
    }

    /** The key is handed on unless the migration is complete, and zeroed whatever the taker does. */
    method Unlock(uck: array<int>, takerFinishes: bool) returns (unlocked: bool)
      requires Valid()
      modifies this, uck
      ensures Valid() && unlocked == !old(complete)
      ensures unlocks == old(unlocks) + (if unlocked then 1 else 0)
      ensures complete == (old(complete) || (takerFinishes && unlocked))
      ensures forall i :: 0 <= i < uck.Length ==> uck[i] == 0
    {
      unlocked := !complete;
      if unlocked {
        unlocks := unlocks + 1;
        if takerFinishes { var first := Finish(); }
      }
      for n := 0 to uck.Length
        invariant forall i :: 0 <= i < n ==> uck[i] == 0
        invariant Valid() && unlocks == old(unlocks) + (if unlocked then 1 else 0) && complete == (old(complete) || (takerFinishes && unlocked))
      {
        uck[n] := 0;
      }
    }

    /** A first status that says complete finishes; another is passed on while nothing is complete. */
    method AcceptInitialStatus(status: Status) returns (passedOn: bool)
      requires Valid()
      modifies this
      ensures Valid() && passedOn == (!old(complete) && status.state != Complete)
      ensures complete == (old(complete) || status.state == Complete)
    {
      if complete { return false; }
      if status.state == Complete {
        var first := Finish();
        return false;
      }
      return true;
    }
  }
}

/**
 * When the legacy content key may go: the observation that no legacy row is left, the wait for old backups to
 * lapse, and an administrator's confirmation (apps/web/lib/e2ee-legacy-retirement.ts).
 */
module LegacyRetirement {
  import opened Prelude

  const DAY_MS: int := 86_400_000

  datatype State =
    | Migrating | UnsafeKeyMissing | ZeroObservationRequired | BackupPolicyUnconfigured | WaitingBackupRetention
    | BackupConfirmationRequired | ReadyToRemoveKey | KeyRemovedUnconfirmed | Retired

  /** The singleton row; a trigger keeps the number of legacy records. */
  datatype Row = Row(legacyRecords: nat, zeroObservedAt: Option<int>, backupConfirmedAt: Option<int>, keyRetiredObservedAt: Option<int>)

  datatype Event =
    | ZeroObserved(at: int)
    | ZeroInvalidated(legacyRecords: nat, at: int)
    | BackupConfirmed(actor: string, at: int)
    | KeyRetiredObserved(at: int)

  datatype Data = Data(row: Row, events: seq<Event>)

  /** What a request runs with. */
  datatype Runtime = Runtime(now: int, retentionDays: Option<nat>, kekConfigured: bool)

  function EligibleAt(zeroObservedAt: int, retentionDays: nat): int { zeroObservedAt + retentionDays * DAY_MS }

  function Derive(row: Row, runtime: Runtime): State {
    if row.legacyRecords > 0 then if runtime.kekConfigured then Migrating else UnsafeKeyMissing
    else if row.zeroObservedAt.None? then ZeroObservationRequired
    else if runtime.retentionDays.None? then BackupPolicyUnconfigured
    else if runtime.now < EligibleAt(row.zeroObservedAt.value, runtime.retentionDays.value) then WaitingBackupRetention
    else if row.backupConfirmedAt.None? then if runtime.kekConfigured then BackupConfirmationRequired else KeyRemovedUnconfirmed
    else if runtime.kekConfigured then ReadyToRemoveKey
    else Retired
  }

  function ObserveCount(data: Data, now: int): Data {
    var row := data.row;
    if row.legacyRecords > 0 && (row.zeroObservedAt.Some? || row.backupConfirmedAt.Some? || row.keyRetiredObservedAt.Some?) then
      Data(Row(row.legacyRecords, None, None, None), data.events + [ZeroInvalidated(row.legacyRecords, now)])
    else if row.legacyRecords == 0 && row.zeroObservedAt.None? then
      Data(row.(zeroObservedAt := Some(now)), data.events + [ZeroObserved(now)])
    else data
  }

  function ObserveKey(data: Data, runtime: Runtime): Data {
    var row := data.row;
    if row.legacyRecords == 0 && row.backupConfirmedAt.Some? && !runtime.kekConfigured && row.keyRetiredObservedAt.None? then
      Data(row.(keyRetiredObservedAt := Some(runtime.now)), data.events + [KeyRetiredObserved(runtime.now)])
    else data
  }

  function Reconcile(data: Data, runtime: Runtime): Data { ObserveKey(ObserveCount(data, runtime.now), runtime) }

  predicate IsConfirmable(state: State) { state == BackupConfirmationRequired || state == KeyRemovedUnconfirmed }

  /** A confirmation that is not due is refused, and the observation made for it is rolled back. */
  function Confirm(data: Data, actor: string, runtime: Runtime): Result<Data> {
    if actor == "" then Err("INVALID_ADMIN_USER")
    else
      var current := Reconcile(data, runtime);
      if !IsConfirmable(Derive(current.row, runtime)) then Err("BACKUP_CONFIRMATION_NOT_READY")
      else
        Ok(Reconcile(Data(current.row.(backupConfirmedAt := Some(runtime.now)), current.events + [BackupConfirmed(actor, runtime.now)]), runtime))
  }

  // ------------------------------------------------------------------ whole runs

  datatype Tx = Observe(runtime: Runtime) | ConfirmTx(actor: string, runtime: Runtime) | Count(legacyRecords: nat)

  function Step(data: Data, tx: Tx): Data {
    match tx
    case Observe(runtime) => Reconcile(data, runtime)
    case ConfirmTx(actor, runtime) => (match Confirm(data, actor, runtime) case Ok(after) => after case Err(_) => data)
    case Count(legacyRecords) => data.(row := data.row.(legacyRecords := legacyRecords))
  }

  function Run(data: Data, txs: seq<Tx>): Data
    decreases |txs|
  {
    if txs == [] then data else Step(Run(data, txs[..|txs| - 1]), txs[|txs| - 1])
  }

  function Start(legacyRecords: nat): Data { Data(Row(legacyRecords, None, None, None), []) }

  // ------------------------------------------------------------- the log and the row

  /** The three times that the events of the log leave. */
  function Folded(events: seq<Event>): (Option<int>, Option<int>, Option<int>) {
    if events == [] then (None, None, None)
    else
      var (zero, confirmed, retired) := Folded(events[..|events| - 1]);
      match events[|events| - 1]
      case ZeroObserved(at) => (Some(at), confirmed, retired)
      case ZeroInvalidated(_, _) => (None, None, None)
      case BackupConfirmed(_, at) => (zero, Some(at), retired)
      case KeyRetiredObserved(at) => (zero, confirmed, Some(at))
  }

  predicate LogFits(data: Data) {
    Folded(data.events) == (data.row.zeroObservedAt, data.row.backupConfirmedAt, data.row.keyRetiredObservedAt)
  }

  /** Later times are only kept with the earlier ones. */
  predicate Nested(row: Row) {
    (row.backupConfirmedAt.Some? ==> row.zeroObservedAt.Some?) && (row.keyRetiredObservedAt.Some? ==> row.backupConfirmedAt.Some?)
  }

  lemma FoldedNext(events: seq<Event>, event: Event)
    ensures var (zero, confirmed, retired) := Folded(events);
            Folded(events + [event]) ==
              match event
              case ZeroObserved(at) => (Some(at), confirmed, retired)
              case ZeroInvalidated(_, _) => (None, None, None)
              case BackupConfirmed(_, at) => (zero, Some(at), retired)
              case KeyRetiredObserved(at) => (zero, confirmed, Some(at))
  {
    assert (events + [event])[..|events|] == events;
  }

  lemma ReconcileKeepsLog(data: Data, runtime: Runtime)
    requires LogFits(data) && Nested(data.row)
    ensures LogFits(Reconcile(data, runtime)) && Nested(Reconcile(data, runtime).row)
  {
    FoldedNext(data.events, ZeroInvalidated(data.row.legacyRecords, runtime.now));
    FoldedNext(data.events, ZeroObserved(runtime.now));
    FoldedNext(ObserveCount(data, runtime.now).events, KeyRetiredObserved(runtime.now));
    hide Folded;
  }

  lemma StepKeepsLog(data: Data, tx: Tx)
    requires LogFits(data) && Nested(data.row)
    ensures LogFits(Step(data, tx)) && Nested(Step(data, tx).row)
  {
    hide Folded, Reconcile;
    match tx
    case Observe(runtime) => ReconcileKeepsLog(data, runtime);
    case ConfirmTx(actor, runtime) =>
      var current := Reconcile(data, runtime);
      ReconcileKeepsLog(data, runtime);
      FoldedNext(current.events, BackupConfirmed(actor, runtime.now));
      if Confirm(data, actor, runtime).Ok? {
        ReconcileKeepsLog(Data(current.row.(backupConfirmedAt := Some(runtime.now)), current.events + [BackupConfirmed(actor, runtime.now)]), runtime);
      }
    case Count(_) =>
  }

  /** In every run, folding the event log gives exactly the three stored times. */
  lemma {:induction false} LogTellsRow(legacyRecords: nat, txs: seq<Tx>)
    ensures LogFits(Run(Start(legacyRecords), txs)) && Nested(Run(Start(legacyRecords), txs).row)
    decreases |txs|
  {
    if txs != [] {
      LogTellsRow(legacyRecords, txs[..|txs| - 1]);
      hide Step, Folded;
      StepKeepsLog(Run(Start(legacyRecords), txs[..|txs| - 1]), txs[|txs| - 1]);
    }
  }

  // ---------------------------------------------------------- one request, told in full

  /** The zero a request finds or observes itself. */
  function ZeroAt(row: Row, now: int): int { if row.zeroObservedAt.Some? then row.zeroObservedAt.value else now }

  /** What is reported after an observation: a zero observation is never asked for, as it has just been made. */
  lemma StatusMeans(data: Data, runtime: Runtime)
    requires Nested(data.row)
    ensures var (state, row, kek) := (Derive(Reconcile(data, runtime).row, runtime), data.row, runtime.kekConfigured);
            && (state == Migrating <==> row.legacyRecords > 0 && kek)
            && (state == UnsafeKeyMissing <==> row.legacyRecords > 0 && !kek)
            && state != ZeroObservationRequired
            && (state == BackupPolicyUnconfigured <==> row.legacyRecords == 0 && runtime.retentionDays.None?)
            && (state == WaitingBackupRetention <==>
                  row.legacyRecords == 0 && runtime.retentionDays.Some?
                  && runtime.now < ZeroAt(row, runtime.now) + runtime.retentionDays.value * 86_400_000)
            && (state == ReadyToRemoveKey || state == Retired ==> row.backupConfirmedAt.Some? && row.legacyRecords == 0)
            && (state == BackupConfirmationRequired || state == KeyRemovedUnconfirmed ==> row.backupConfirmedAt.None? && row.legacyRecords == 0)
            && (state in {BackupConfirmationRequired, ReadyToRemoveKey} ==> kek)
            && (state in {KeyRemovedUnconfirmed, Retired} ==> !kek)
  {
  }

  /** Observing twice at once is observing once. */
  lemma ReconcileIsIdempotent(data: Data, runtime: Runtime)
    requires Nested(data.row)
    ensures Reconcile(Reconcile(data, runtime), runtime) == Reconcile(data, runtime)
  {
  }

  /** What an observation leaves: with rows no time stands, without them the first zero does, and a missing key is noted once it may be missing. */
  lemma ObservationLeaves(data: Data, runtime: Runtime)
    requires Nested(data.row)
    ensures var (row, after) := (data.row, Reconcile(data, runtime));
            if row.legacyRecords > 0 then
              && after.row == Row(row.legacyRecords, None, None, None)
              && after.events == data.events + if row.zeroObservedAt.Some? then [ZeroInvalidated(row.legacyRecords, runtime.now)] else []
            else
              && after.row == Row(0, Some(ZeroAt(row, runtime.now)), row.backupConfirmedAt,
                                  if row.keyRetiredObservedAt.None? && row.backupConfirmedAt.Some? && !runtime.kekConfigured
                                  then Some(runtime.now) else row.keyRetiredObservedAt)
              && |after.events| == |data.events| + (if row.zeroObservedAt.None? then 1 else 0)
                   + (if after.row.keyRetiredObservedAt != row.keyRetiredObservedAt then 1 else 0)
  {
  }

  /** Exactly when a confirmation goes through: by somebody, with no rows left, the retention over and none confirmed yet. */
  lemma ConfirmGoesThroughIff(data: Data, actor: string, runtime: Runtime)
    requires Nested(data.row)
    ensures var (row, now, result) := (data.row, runtime.now, Confirm(data, actor, runtime));
            && (result.Ok? <==> actor != "" && row.legacyRecords == 0 && row.backupConfirmedAt.None? && runtime.retentionDays.Some?
                                && now >= ZeroAt(row, now) + runtime.retentionDays.value * 86_400_000)
            && (result.Ok? ==>
                  && result.value.row == Row(0, Some(ZeroAt(row, now)), Some(now), if runtime.kekConfigured then None else Some(now))
                  && result.value.events == data.events + (if row.zeroObservedAt.None? then [ZeroObserved(now)] else [])
                       + [BackupConfirmed(actor, now)] + (if runtime.kekConfigured then [] else [KeyRetiredObserved(now)]))
            && (result.Err? ==> result.error == if actor == "" then "INVALID_ADMIN_USER" else "BACKUP_CONFIRMATION_NOT_READY")
  {
  }

  // --------------------------------------------------------- what a report rests on

  /** The transaction reads the row and observes its count; a confirmation by nobody is turned away before that. */
  predicate Looks(tx: Tx) { tx.Observe? || (tx.ConfirmTx? && tx.actor != "") }

  /** What it observes is committed: a refused confirmation is rolled back. */
  predicate Keeps(data: Data, tx: Tx) { tx.Observe? || (tx.ConfirmTx? && Confirm(data, tx.actor, tx.runtime).Ok?) }

  /** What transaction `k` of a run finds. */
  function Before(legacyRecords: nat, txs: seq<Tx>, k: nat): Data
    requires k <= |txs|
  {
    Run(Start(legacyRecords), txs[..k])
  }

  /** Transaction `i` observed at `at`, and it and every later one that was committed saw no legacy row. */
  ghost predicate ZeroSince(legacyRecords: nat, txs: seq<Tx>, i: nat, at: int) {
    && i < |txs| && Keeps(Before(legacyRecords, txs, i), txs[i]) && txs[i].runtime.now == at
    && forall k :: i <= k < |txs| && Keeps(Before(legacyRecords, txs, k), txs[k]) ==> Before(legacyRecords, txs, k).row.legacyRecords == 0
  }

  /** Transaction `j` is a confirmation at `at`, made after the retention configured then had passed since `zeroAt`. */
  ghost predicate ConfirmedDue(legacyRecords: nat, txs: seq<Tx>, j: nat, at: int, zeroAt: int) {
    && j < |txs| && txs[j].ConfirmTx? && Keeps(Before(legacyRecords, txs, j), txs[j])
    && txs[j].runtime.now == at && txs[j].runtime.retentionDays.Some?
    && at >= zeroAt + txs[j].runtime.retentionDays.value * 86_400_000
  }

  ghost predicate ConfirmedSince(legacyRecords: nat, txs: seq<Tx>, i: nat, row: Row)
    requires row.zeroObservedAt.Some?
  {
    row.backupConfirmedAt.Some? ==>
      exists j: nat :: i <= j && ConfirmedDue(legacyRecords, txs, j, row.backupConfirmedAt.value, row.zeroObservedAt.value)
  }

  ghost predicate Backed(legacyRecords: nat, txs: seq<Tx>) {
    var row := Run(Start(legacyRecords), txs).row;
    row.zeroObservedAt.Some? ==>
      exists i: nat :: ZeroSince(legacyRecords, txs, i, row.zeroObservedAt.value) && ConfirmedSince(legacyRecords, txs, i, row)
  }

  lemma BeforeNext(legacyRecords: nat, txs: seq<Tx>, tx: Tx)
    ensures forall k: nat | k <= |txs| :: Before(legacyRecords, txs + [tx], k) == Before(legacyRecords, txs, k)
    ensures Before(legacyRecords, txs, |txs|) == Run(Start(legacyRecords), txs)
    ensures Run(Start(legacyRecords), txs + [tx]) == Step(Run(Start(legacyRecords), txs), tx)
  {
    hide Step;
    assert txs[..|txs|] == txs;
    forall k: nat | k <= |txs| ensures (txs + [tx])[..k] == txs[..k] {}
  }

  lemma ZeroSinceNext(legacyRecords: nat, txs: seq<Tx>, tx: Tx, i: nat, at: int)
    requires var data := Run(Start(legacyRecords), txs);
             Keeps(data, tx) ==> data.row.legacyRecords == 0
    requires if i == |txs| then Keeps(Run(Start(legacyRecords), txs), tx) && tx.runtime.now == at else ZeroSince(legacyRecords, txs, i, at)
    ensures ZeroSince(legacyRecords, txs + [tx], i, at)
  {
    BeforeNext(legacyRecords, txs, tx);
    hide Before, Keeps, Run;
  }

  lemma ConfirmedNext(legacyRecords: nat, txs: seq<Tx>, tx: Tx, i: nat, row: Row)
    requires row.zeroObservedAt.Some? && ConfirmedSince(legacyRecords, txs, i, row)
    ensures ConfirmedSince(legacyRecords, txs + [tx], i, row)
  {
    BeforeNext(legacyRecords, txs, tx);
    hide Before, Keeps, Run;
    if row.backupConfirmedAt.Some? {
      var j: nat :| i <= j && ConfirmedDue(legacyRecords, txs, j, row.backupConfirmedAt.value, row.zeroObservedAt.value);
      assert ConfirmedDue(legacyRecords, txs + [tx], j, row.backupConfirmedAt.value, row.zeroObservedAt.value);
    }
  }

  lemma ConfirmsNow(legacyRecords: nat, txs: seq<Tx>, tx: Tx, i: nat, row: Row)
    requires row.zeroObservedAt.Some? && tx.ConfirmTx? && Keeps(Run(Start(legacyRecords), txs), tx) && i <= |txs|
    requires row.backupConfirmedAt == Some(tx.runtime.now) && tx.runtime.retentionDays.Some?
    requires tx.runtime.now >= EligibleAt(row.zeroObservedAt.value, tx.runtime.retentionDays.value)
    ensures ConfirmedSince(legacyRecords, txs + [tx], i, row)
  {
    BeforeNext(legacyRecords, txs, tx);
    hide Before, Keeps, Run;
    assert ConfirmedDue(legacyRecords, txs + [tx], |txs|, tx.runtime.now, row.zeroObservedAt.value);
  }

  /** What a committed observation leaves: the first time zero was seen, and a confirmation only if it is due. */
  lemma KeptStep(data: Data, tx: Tx)
    requires Keeps(data, tx) && Nested(data.row)
    ensures var row := Step(data, tx).row;
            && (row.zeroObservedAt.Some? ==>
                  data.row.legacyRecords == 0
                  && row.zeroObservedAt == (if data.row.zeroObservedAt.Some? then data.row.zeroObservedAt else Some(tx.runtime.now)))
            && (row.zeroObservedAt.Some? && tx.Observe? ==> row.backupConfirmedAt == data.row.backupConfirmedAt)
            && (tx.ConfirmTx? ==>
                  row.backupConfirmedAt == Some(tx.runtime.now) && row.zeroObservedAt.Some? && tx.runtime.retentionDays.Some?
                  && tx.runtime.now >= EligibleAt(row.zeroObservedAt.value, tx.runtime.retentionDays.value))
  {
  }

  lemma StepBacked(legacyRecords: nat, txs: seq<Tx>, tx: Tx)
    requires Backed(legacyRecords, txs) && Nested(Run(Start(legacyRecords), txs).row)
    ensures Backed(legacyRecords, txs + [tx])
  {
    var data := Run(Start(legacyRecords), txs);
    var before, after := data.row, Step(data, tx).row;
    BeforeNext(legacyRecords, txs, tx);
    if Keeps(data, tx) { KeptStep(data, tx); }
    assert !Keeps(data, tx) ==> after == before.(legacyRecords := after.legacyRecords);
    if after.zeroObservedAt.Some? {
      var at := after.zeroObservedAt.value;
      var i: nat := |txs|;
      if before.zeroObservedAt.Some? {
        i :| ZeroSince(legacyRecords, txs, i, at) && ConfirmedSince(legacyRecords, txs, i, before);
      }
      hide Run, Step, Keeps;
      ZeroSinceNext(legacyRecords, txs, tx, i, at);
      if tx.ConfirmTx? && Keeps(data, tx) { ConfirmsNow(legacyRecords, txs, tx, i, after); }
      else if before.zeroObservedAt.Some? {
        ConfirmedNext(legacyRecords, txs, tx, i, before);
      }
    }
  }

  lemma {:induction false} RunIsBacked(legacyRecords: nat, txs: seq<Tx>)
    ensures Backed(legacyRecords, txs)
    decreases |txs|
  {
    if txs != [] {
      var earlier, last := txs[..|txs| - 1], txs[|txs| - 1];
      RunIsBacked(legacyRecords, earlier);
      LogTellsRow(legacyRecords, earlier);
      hide Step, Backed;
      StepBacked(legacyRecords, earlier, last);
      assert earlier + [last] == txs;
    }
  }

  // ------------------------------------------------- observations that are rolled back

  /** The number of legacy records after the transactions: the last count. */
  function CountAfter(legacyRecords: nat, txs: seq<Tx>): nat
    decreases |txs|
  {
    if txs == [] then legacyRecords
    else if txs[|txs| - 1].Count? then txs[|txs| - 1].legacyRecords
    else CountAfter(legacyRecords, txs[..|txs| - 1])
  }

  lemma {:induction false} RunCounts(legacyRecords: nat, txs: seq<Tx>)
    ensures Run(Start(legacyRecords), txs).row.legacyRecords == CountAfter(legacyRecords, txs)
    decreases |txs|
  {
    if txs != [] { RunCounts(legacyRecords, txs[..|txs| - 1]); }
  }

  /** From transaction `i` on every observation, committed or refused, saw no legacy row. */
  ghost predicate AlwaysSawZero(legacyRecords: nat, txs: seq<Tx>, i: nat) {
    forall k :: i <= k < |txs| && Looks(txs[k]) ==> Before(legacyRecords, txs, k).row.legacyRecords == 0
  }

  /** From transaction `i` on nobody tried to confirm while there were legacy rows. */
  ghost predicate NoAttemptMetRows(legacyRecords: nat, txs: seq<Tx>, i: nat) {
    forall k :: i <= k < |txs| && txs[k].ConfirmTx? && txs[k].actor != "" ==> CountAfter(legacyRecords, txs[..k]) == 0
  }

  /**
   * Since a recorded zero every observation saw no legacy row, refused ones included, exactly when no confirmation
   * was tried while there were legacy rows.
   */
  lemma AlwaysSawZeroIff(legacyRecords: nat, txs: seq<Tx>, i: nat, at: int)
    requires ZeroSince(legacyRecords, txs, i, at)
    ensures AlwaysSawZero(legacyRecords, txs, i) <==> NoAttemptMetRows(legacyRecords, txs, i)
  {
    forall k: nat | k <= |txs|
      ensures Before(legacyRecords, txs, k).row.legacyRecords == CountAfter(legacyRecords, txs[..k])
    {
      RunCounts(legacyRecords, txs[..k]);
    }
    hide Before, Run, CountAfter, Confirm;
  }

  /**
   * What an attempt to confirm observes is kept unless it would have invalidated the zero on record, or would
   * have been the first to see zero and no confirmation is due at once.
   */
  lemma AttemptIsKeptIff(data: Data, actor: string, runtime: Runtime)
    requires actor != ""
    ensures Step(data, ConfirmTx(actor, runtime)).row.zeroObservedAt == Reconcile(data, runtime).row.zeroObservedAt <==>
      && !(data.row.legacyRecords > 0 && data.row.zeroObservedAt.Some?)
      && !(data.row.legacyRecords == 0 && data.row.zeroObservedAt.None?
           && (runtime.retentionDays != Some(0) || data.row.backupConfirmedAt.Some?))
  {
  }

  /**
   * Whenever, in any run, the key is reported removable or retired: every committed observation since the one on
   * record saw no legacy row, and the confirmation came no earlier than that observation plus the retention
   * configured at the confirmation. The refused observations saw none either exactly when no confirmation was
   * tried while there were legacy rows.
   */
  lemma ReadyIsBacked(legacyRecords: nat, txs: seq<Tx>, runtime: Runtime) returns (i: nat, j: nat)
    requires var row := Reconcile(Run(Start(legacyRecords), txs), runtime).row;
             Derive(row, runtime) == ReadyToRemoveKey || Derive(row, runtime) == Retired
    ensures var row := Reconcile(Run(Start(legacyRecords), txs), runtime).row;
            && row.zeroObservedAt.Some? && row.backupConfirmedAt.Some?
            && ZeroSince(legacyRecords, txs + [Observe(runtime)], i, row.zeroObservedAt.value)
            && i <= j && ConfirmedDue(legacyRecords, txs + [Observe(runtime)], j, row.backupConfirmedAt.value, row.zeroObservedAt.value)
    ensures AlwaysSawZero(legacyRecords, txs + [Observe(runtime)], i) <==> NoAttemptMetRows(legacyRecords, txs + [Observe(runtime)], i)
  {
    var all := txs + [Observe(runtime)];
    RunIsBacked(legacyRecords, all);
    BeforeNext(legacyRecords, txs, Observe(runtime));
    var row := Reconcile(Run(Start(legacyRecords), txs), runtime).row;
    assert Run(Start(legacyRecords), all).row == row;
    hide Run, Reconcile, ZeroSince, ConfirmedDue;
    i :| ZeroSince(legacyRecords, all, i, row.zeroObservedAt.value) && ConfirmedSince(legacyRecords, all, i, row);
    j :| i <= j && ConfirmedDue(legacyRecords, all, j, row.backupConfirmedAt.value, row.zeroObservedAt.value);
    AlwaysSawZeroIff(legacyRecords, all, i, row.zeroObservedAt.value);
  }

  /** With no legacy rows left, waiting out the retention, confirming and removing the key ends in retirement. */
  lemma RetirementCompletes(at: int, days: nat, removed: int)
    requires removed >= at + days * 86_400_000
    ensures var due := at + days * 86_400_000;
            var txs := [Observe(Runtime(at, Some(days), true)), ConfirmTx("admin", Runtime(due, Some(days), true))];
            var data := Run(Start(0), txs);
            && Derive(data.row, Runtime(due, Some(days), true)) == ReadyToRemoveKey
            && Derive(Reconcile(data, Runtime(removed, Some(days), false)).row, Runtime(removed, Some(days), false)) == Retired
            && Reconcile(data, Runtime(removed, Some(days), false)).row.keyRetiredObservedAt == Some(removed)
  {
    var due := EligibleAt(at, days);
    var first, second := Observe(Runtime(at, Some(days), true)), ConfirmTx("admin", Runtime(due, Some(days), true));
    assert [first, second][..1] == [first] && [first][..0] == [];
    assert Run(Start(0), [first]) == Step(Run(Start(0), []), first);
    assert Run(Start(0), [first]).row == Row(0, Some(at), None, None);
    assert Run(Start(0), [first, second]).row == Row(0, Some(at), Some(due), None);
  }

  /**
   * A refused confirmation forgets what it saw: seven legacy rows, met by it alone, leave the zero on record, and
   * the key is reported removable as if they had never been.
   */
  lemma RefusedConfirmationForgets()
    ensures var runtime := Runtime(0, Some(0), true);
            var txs := [Observe(runtime), Count(7), ConfirmTx("admin", runtime), Count(0), ConfirmTx("admin", runtime)];
            && Before(0, txs, 2).row == Row(7, Some(0), None, None) == Before(0, txs, 3).row
            && Reconcile(Before(0, txs, 2), runtime).row.zeroObservedAt.None?
            && Derive(Run(Start(0), txs).row, runtime) == ReadyToRemoveKey && Run(Start(0), txs).row.zeroObservedAt == Some(0)
            && !AlwaysSawZero(0, txs, 0)
  {
    var runtime := Runtime(0, Some(0), true);
    var attempt := ConfirmTx("admin", runtime);
    var txs := [Observe(runtime), Count(7), attempt, Count(0), attempt];
    assert txs[..1] == [] + [txs[0]] && txs[..2] == txs[..1] + [txs[1]] && txs[..3] == txs[..2] + [txs[2]];
    assert txs[..4] == txs[..3] + [txs[3]] && txs == txs[..4] + [txs[4]];
    BeforeNext(0, [], txs[0]);
    BeforeNext(0, txs[..1], txs[1]);
    BeforeNext(0, txs[..2], txs[2]);
    BeforeNext(0, txs[..3], txs[3]);
    BeforeNext(0, txs[..4], txs[4]);
    assert Run(Start(0), []) == Start(0);
    assert Step(Start(0), txs[0]).row == Row(0, Some(0), None, None);
    RefusedWithRows(Before(0, txs, 2), runtime);
    ConfirmedAtOnce(Before(0, txs, 4), runtime);
    hide Run, Reconcile, Confirm, Derive;
    assert Looks(txs[2]) && Before(0, txs, 2).row.legacyRecords == 7;
  }

  lemma RefusedWithRows(data: Data, runtime: Runtime)
    requires data.row.legacyRecords > 0
    ensures Step(data, ConfirmTx("admin", runtime)) == data && Reconcile(data, runtime).row.zeroObservedAt.None?
  {
  }

  lemma ConfirmedAtOnce(data: Data, runtime: Runtime)
    requires runtime.retentionDays == Some(0) && runtime.kekConfigured && data.row == Row(0, Some(runtime.now), None, None)
    ensures Step(data, ConfirmTx("admin", runtime)).row == Row(0, Some(runtime.now), Some(runtime.now), None)
    ensures Derive(Step(data, ConfirmTx("admin", runtime)).row, runtime) == ReadyToRemoveKey
  {
  }

  // ----------------------------------------------------------------- the singleton row

  class RetirementStore {
    var row: Row
    var events: seq<Event>

    ghost function View(): Data reads this { Data(row, events) }

    constructor (legacyRecords: nat)
      ensures View() == Start(legacyRecords)
    {
      row, events := Row(legacyRecords, None, None, None), [];
    }

    /** Brings the row up to date with the count and the key, and says where retirement stands. */
    method ReconcileStatus(runtime: Runtime) returns (state: State)
      modifies this
      ensures View() == Reconcile(old(View()), runtime) && state == Derive(row, runtime)
    {
      if row.legacyRecords > 0 && (row.zeroObservedAt.Some? || row.backupConfirmedAt.Some? || row.keyRetiredObservedAt.Some?) {
        row := row.(zeroObservedAt := None, backupConfirmedAt := None, keyRetiredObservedAt := None);
        events := events + [ZeroInvalidated(row.legacyRecords, runtime.now)];
      } else if row.legacyRecords == 0 && row.zeroObservedAt.None? {
        row := row.(zeroObservedAt := Some(runtime.now));
        events := events + [ZeroObserved(runtime.now)];
      }
      if row.legacyRecords == 0 && row.backupConfirmedAt.Some? && !runtime.kekConfigured && row.keyRetiredObservedAt.None? {
        row := row.(keyRetiredObservedAt := Some(runtime.now));
        events := events + [KeyRetiredObserved(runtime.now)];
      }
      return Derive(row, runtime);
    }

    /** Records the confirmation, or leaves everything as it was. */
    method ConfirmLegacyBackupPurge(actor: string, runtime: Runtime) returns (result: Result<State>)
      modifies this
      ensures result.Ok? <==> Confirm(old(View()), actor, runtime).Ok?
      ensures result.Ok? ==> View() == Confirm(old(View()), actor, runtime).value && result.value == Derive(row, runtime)
      ensures result.Err? ==> View() == old(View()) && result.error == Confirm(old(View()), actor, runtime).error
    {
      if actor == "" { return Err("INVALID_ADMIN_USER"); }
      hide Reconcile, Derive;
      var savedRow, savedEvents := row, events;
      var state := ReconcileStatus(runtime);
      if !IsConfirmable(state) {
        row, events := savedRow, savedEvents;
        return Err("BACKUP_CONFIRMATION_NOT_READY");
      }
      row := row.(backupConfirmedAt := Some(runtime.now));
      events := events + [BackupConfirmed(actor, runtime.now)];
      state := ReconcileStatus(runtime);
      return Ok(state);
    }
  }
}

/**
 * Wanted and applied content mode of one device of one owner, and the commands it is given
 * (apps/web/lib/device-control-repository.ts; the indexes of migrations/1700000050). Transactions are taken
 * one after the other.
 */
module DeviceControl {
  import opened Prelude

  const LEASE_MS: int := 300_000
  const EXPIRY_MS: int := 600_000
  const CLAIM_LIMIT: nat := 8

  datatype Kind = Collect | Doctor
  datatype CommandStatus = Pending | Claimed | Succeeded | Failed | Expired
  datatype Mode = Off | ServerV1 | E2eeV1

  datatype Command = Command(
    kind: Kind, status: CommandStatus, resultCode: Option<string>, createdAt: int, expiresAt: int,
    claimedAt: Option<int>, leaseExpiresAt: Option<int>, completedAt: Option<int>)

  type Commands = map<string, Command>

  datatype Policy = Policy(generation: nat, mode: Mode, since: Option<int>)

  /** A generation with the mode and start time that were applied under it. */
  datatype Applied = Applied(generation: nat, mode: Mode, since: Option<int>)

  datatype Observation = Observation(host: Option<string>, shimVersion: string, daemonActive: bool, applied: Applied,
                                     errorCode: Option<string>, lastSyncAt: int)

  datatype CommandResult = CommandResult(commandId: string, succeeded: bool, resultCode: Option<string>)

  datatype Report = Report(host: Option<string>, shimVersion: string, daemonActive: bool, applied: Applied,
                           errorCode: Option<string>, results: seq<CommandResult>)

  datatype Device = Device(policy: Option<Policy>, observation: Option<Observation>, commands: Commands)

  predicate IsOpen(command: Command) { command.status == Pending || command.status == Claimed }

  // --------------------------------------------------------------------- commands

  /** A result counts only for a claimed command. */
  function Finished(commands: Commands, result: CommandResult, now: int): Commands {
    if result.commandId in commands && commands[result.commandId].status == Claimed then
      commands[result.commandId := commands[result.commandId].(
        status := if result.succeeded then Succeeded else Failed, resultCode := result.resultCode,
        completedAt := Some(now), leaseExpiresAt := None)]
    else commands
  }

  function FinishAll(commands: Commands, results: seq<CommandResult>, now: int): Commands
    decreases |results|
  {
    if results == [] then commands
    else Finished(FinishAll(commands, results[..|results| - 1], now), results[|results| - 1], now)
  }

  function ExpireOne(command: Command, now: int): Command {
    if IsOpen(command) && command.expiresAt <= now then
      command.(status := Expired, resultCode := Some("command_expired"), completedAt := Some(now), leaseExpiresAt := None)
    else command
  }

  function Expire(commands: Commands, now: int): Commands { map id | id in commands :: ExpireOne(commands[id], now) }

  predicate IsClaimable(command: Command, now: int) {
    && command.expiresAt > now
    && (command.status == Pending || (command.status == Claimed && command.leaseExpiresAt.Some? && command.leaseExpiresAt.value <= now))
  }

  function Claimable(commands: Commands, now: int): set<string> { set id | id in commands && IsClaimable(commands[id], now) }

  function ClaimOne(command: Command, now: int): Command {
    command.(status := Claimed, claimedAt := if command.claimedAt.Some? then command.claimedAt else Some(now),
             leaseExpiresAt := Some(now + LEASE_MS))
  }

  function Claim(commands: Commands, ids: set<string>, now: int): Commands {
    map id | id in commands :: if id in ids then ClaimOne(commands[id], now) else commands[id]
  }

  // ----------------------------------------------------------------- transactions

  /** A report of an older generation leaves the applied triple as it is. */
  function Observed(observation: Option<Observation>, report: Report, now: int): Observation {
    var applied :=
      if observation.None? || report.applied.generation >= observation.value.applied.generation then report.applied
      else observation.value.applied;
    Observation(report.host, report.shimVersion, report.daemonActive, applied, report.errorCode, now)
  }

  function InitialPolicy(policy: Option<Policy>, report: Report): Policy {
    if policy.Some? then policy.value else Policy(1, report.applied.mode, report.applied.since)
  }

  datatype Reply = Reply(desired: Policy, handedOut: set<string>)

  function Sync(device: Device, report: Report, now: int): (Device, Reply) {
    var finished := FinishAll(device.commands, report.results, now);
    var open := Expire(finished, now);
    var ids := Claimable(open, now);
    var policy := InitialPolicy(device.policy, report);
    (Device(Some(policy), Some(Observed(device.observation, report, now)), Claim(open, ids, now)), Reply(policy, ids))
  }

  function SetMode(device: Device, mode: Mode, now: int): Device {
    var generation := if device.policy.Some? then device.policy.value.generation + 1 else 1;
    device.(policy := Some(Policy(generation, mode, if mode == ServerV1 then Some(now) else None)))
  }

  function New(kind: Kind, now: int): Command { Command(kind, Pending, None, now, now + EXPIRY_MS, None, None, None) }

  /** The open commands of a kind; the index allows one. */
  function OpenOf(commands: Commands, kind: Kind): set<string> {
    set id | id in commands && commands[id].kind == kind && IsOpen(commands[id])
  }

  function Enqueue(device: Device, id: string, kind: Kind, now: int): Device {
    var commands := Expire(device.commands, now);
    device.(commands := if OpenOf(commands, kind) == {} then commands[id := New(kind, now)] else commands)
  }

  // -------------------------------------------------------------------- invariants

  /** The unique index, and what a claimed command carries. */
  ghost predicate Valid(commands: Commands) {
    && (forall a, b | a in commands && b in commands && IsOpen(commands[a]) && IsOpen(commands[b]) :: commands[a].kind == commands[b].kind ==> a == b)
    && (forall id | id in commands && commands[id].status == Claimed :: commands[id].leaseExpiresAt.Some?)
  }

  /** How one command may change: a closed one not at all. */
  predicate MayBecome(before: Command, after: Command) {
    && after.kind == before.kind && after.createdAt == before.createdAt && after.expiresAt == before.expiresAt
    && (before.claimedAt.Some? ==> after.claimedAt == before.claimedAt)
    && match before.status
       case Pending => after.status in {Pending, Claimed, Expired}
       case Claimed => after.status in {Claimed, Succeeded, Failed, Expired}
       case _ => after == before
  }

  /** No command is lost, and each changes only as it may. */
  ghost predicate Evolves(before: Commands, after: Commands) {
    before.Keys <= after.Keys && forall id | id in before :: MayBecome(before[id], after[id])
  }

  lemma FinishedEvolves(commands: Commands, result: CommandResult, now: int)
    requires Valid(commands)
    ensures Valid(Finished(commands, result, now)) && Evolves(commands, Finished(commands, result, now))
    ensures Finished(commands, result, now).Keys == commands.Keys
    ensures forall id | id in commands && commands[id].status == Pending :: Finished(commands, result, now)[id] == commands[id]
    ensures forall id | id in commands && IsOpen(Finished(commands, result, now)[id]) :: Finished(commands, result, now)[id] == commands[id]
  {
  }

  lemma {:induction false} FinishAllEvolves(commands: Commands, results: seq<CommandResult>, now: int)
    requires Valid(commands)
    ensures Valid(FinishAll(commands, results, now)) && Evolves(commands, FinishAll(commands, results, now))
    ensures FinishAll(commands, results, now).Keys == commands.Keys
    ensures forall id | id in commands && commands[id].status == Pending :: FinishAll(commands, results, now)[id] == commands[id]
    ensures forall id | id in commands && IsOpen(FinishAll(commands, results, now)[id]) :: FinishAll(commands, results, now)[id] == commands[id]
    decreases |results|
  {
    if results != [] {
      var earlier := results[..|results| - 1];
      FinishAllEvolves(commands, earlier, now);
      FinishedEvolves(FinishAll(commands, earlier, now), results[|results| - 1], now);
      hide Valid, Finished;
    }
  }

  lemma ExpireKeeps(commands: Commands, now: int)
    requires Valid(commands)
    ensures Valid(Expire(commands, now)) && Evolves(commands, Expire(commands, now)) && Expire(commands, now).Keys == commands.Keys
    ensures forall id | id in commands && IsOpen(Expire(commands, now)[id]) :: commands[id].expiresAt > now
    ensures forall id | id in commands && IsOpen(Expire(commands, now)[id]) :: Expire(commands, now)[id] == commands[id]
  {
  }

  lemma ClaimKeeps(commands: Commands, now: int)
    requires Valid(commands)
    ensures var claimed := Claim(commands, Claimable(commands, now), now);
            Valid(claimed) && Evolves(commands, claimed) && claimed.Keys == commands.Keys
  {
  }

  /** From the command as it was, through expiry, to the claim. */
  lemma OneSync(before: Command, finished: Command, now: int)
    requires MayBecome(before, finished) && (before.status == Pending ==> finished == before)
    ensures var open := ExpireOne(finished, now);
            && MayBecome(before, open)
            && (IsClaimable(open, now) ==> MayBecome(before, ClaimOne(open, now)))
  {
  }

  lemma SyncEvolves(device: Device, report: Report, now: int)
    requires Valid(device.commands)
    ensures Valid(Sync(device, report, now).0.commands) && Evolves(device.commands, Sync(device, report, now).0.commands)
  {
    FinishAllEvolves(device.commands, report.results, now);
    var finished := FinishAll(device.commands, report.results, now);
    var open := Expire(finished, now);
    ExpireKeeps(finished, now);
    ClaimKeeps(open, now);
    hide Valid, FinishAll, MayBecome;
    var after := Claim(open, Claimable(open, now), now);
    forall id | id in device.commands ensures MayBecome(device.commands[id], after[id]) {
      OneSync(device.commands[id], finished[id], now);
    }
  }

  lemma AddKeeps(commands: Commands, id: string, kind: Kind, now: int)
    requires Valid(commands) && id !in commands && OpenOf(commands, kind) == {}
    ensures Valid(commands[id := New(kind, now)])
  {
    assert forall k | k in commands && IsOpen(commands[k]) :: commands[k].kind == kind ==> k in OpenOf(commands, kind);
  }

  lemma EnqueueEvolves(device: Device, id: string, kind: Kind, now: int)
    requires Valid(device.commands) && id !in device.commands
    ensures Valid(Enqueue(device, id, kind, now).commands) && Evolves(device.commands, Enqueue(device, id, kind, now).commands)
  {
    ExpireKeeps(device.commands, now);
    hide Expire, Valid, MayBecome;
    var open := Expire(device.commands, now);
    if OpenOf(open, kind) == {} { AddKeeps(open, id, kind, now); }
  }

  /** The command an enqueue answers with is open, of the kind asked for, and not yet expired; there always is one. */
  lemma EnqueueFindsOpen(device: Device, id: string, kind: Kind, now: int)
    requires Valid(device.commands) && id !in device.commands
    ensures var after := Enqueue(device, id, kind, now).commands;
            exists k :: k in after && after[k].kind == kind && IsOpen(after[k]) && after[k].expiresAt > now
  {
    var open := Expire(device.commands, now);
    ExpireKeeps(device.commands, now);
    var after := Enqueue(device, id, kind, now).commands;
    if OpenOf(open, kind) == {} {
      assert id in after && after[id] == New(kind, now);
    } else {
      var k :| k in OpenOf(open, kind);
      assert k in after && IsOpen(after[k]);
    }
  }

  /** There are never more candidates than one of each kind, so the limit of a claim never cuts any off. */
  lemma LimitNeverCuts(commands: Commands, now: int)
    requires Valid(commands)
    ensures |Claimable(commands, now)| <= 2 < CLAIM_LIMIT
  {
    var ids := Claimable(commands, now);
    var collect := set id | id in ids && commands[id].kind == Collect;
    var doctor := set id | id in ids && commands[id].kind == Doctor;
    AtMostOne(collect, commands);
    AtMostOne(doctor, commands);
    hide Valid, IsClaimable;
    TwoParts(ids, collect, doctor);
  }

  lemma TwoParts(ids: set<string>, a: set<string>, b: set<string>)
    requires ids == a + b
    ensures |ids| <= |a| + |b|
  {
    assert |a + b| == |a| + |b| - |a * b|;
  }

  lemma AtMostOne(ids: set<string>, commands: Commands)
    requires forall id | id in ids :: id in commands
    requires forall a, b | a in ids && b in ids :: a == b
    ensures |ids| <= 1
  {
    if id :| id in ids { assert ids == {id}; }
  }

  // ------------------------------------------- what a sync makes of one command

  /** The first result of the report for a command. */
  function FirstResult(results: seq<CommandResult>, id: string): Option<CommandResult>
    decreases |results|
  {
    if results == [] then None
    else
      var earlier := FirstResult(results[..|results| - 1], id);
      if earlier.Some? then earlier
      else if results[|results| - 1].commandId == id then Some(results[|results| - 1])
      else None
  }

  /** A claimed command takes the first result for it; every other command ignores results. */
  lemma {:induction false} FirstResultCounts(commands: Commands, results: seq<CommandResult>, now: int, id: string)
    requires id in commands
    ensures var (after, first) := (FinishAll(commands, results, now), FirstResult(results, id));
            && id in after
            && (commands[id].status != Claimed || first.None? ==> after[id] == commands[id])
            && (commands[id].status == Claimed && first.Some? ==>
                  after[id] == commands[id].(status := if first.value.succeeded then Succeeded else Failed,
                                             resultCode := first.value.resultCode, completedAt := Some(now), leaseExpiresAt := None))
    decreases |results|
  {
    if results != [] {
      FirstResultCounts(commands, results[..|results| - 1], now, id);
    }
  }

  /**
   * Every command of the device, once: an answered claim is finished with its first result; else an open command
   * past its time expires; else a pending one, or a claimed one whose lease has lapsed, is handed out for five
   * minutes and remembers when it first was; else nothing happens to it.
   */
  lemma SyncOutcome(device: Device, report: Report, now: int, id: string)
    requires id in device.commands
    ensures var (after, reply) := Sync(device, report, now);
            var (command, result) := (device.commands[id], FirstResult(report.results, id));
            var lapsed := command.status == Claimed && command.leaseExpiresAt.Some? && command.leaseExpiresAt.value <= now;
            && id in after.commands
            && (if command.status == Claimed && result.Some? then
                  id !in reply.handedOut && after.commands[id] ==
                    command.(status := if result.value.succeeded then Succeeded else Failed, resultCode := result.value.resultCode,
                             completedAt := Some(now), leaseExpiresAt := None)
                else if (command.status == Pending || command.status == Claimed) && command.expiresAt <= now then
                  id !in reply.handedOut && after.commands[id] ==
                    command.(status := Expired, resultCode := Some("command_expired"), completedAt := Some(now), leaseExpiresAt := None)
                else if command.status == Pending || lapsed then
                  id in reply.handedOut && after.commands[id] ==
                    command.(status := Claimed, claimedAt := Some(if command.claimedAt.Some? then command.claimedAt.value else now),
                             leaseExpiresAt := Some(now + 300_000))
                else id !in reply.handedOut && after.commands[id] == command)
    ensures Sync(device, report, now).0.commands.Keys == device.commands.Keys
  {
    FirstResultCounts(device.commands, report.results, now, id);
    SyncKeys(device, report, now);
    hide FinishAll, FirstResult;
  }

  lemma {:induction false} FinishAllKeys(commands: Commands, results: seq<CommandResult>, now: int)
    ensures FinishAll(commands, results, now).Keys == commands.Keys
    decreases |results|
  {
    if results != [] { FinishAllKeys(commands, results[..|results| - 1], now); }
  }

  lemma SyncKeys(device: Device, report: Report, now: int)
    ensures Sync(device, report, now).0.commands.Keys == device.commands.Keys
  {
    FinishAllKeys(device.commands, report.results, now);
    hide FinishAll;
  }

  // ------------------------------------------------------------------ whole runs

  datatype Tx = SyncTx(report: Report, now: int) | SetModeTx(mode: Mode, now: int) | EnqueueTx(id: string, kind: Kind, now: int)

  /** A new command's id is fresh; a used one is refused. */
  function Step(device: Device, tx: Tx): Device {
    match tx
    case SyncTx(report, now) => Sync(device, report, now).0
    case SetModeTx(mode, now) => SetMode(device, mode, now)
    case EnqueueTx(id, kind, now) => if id in device.commands then device else Enqueue(device, id, kind, now)
  }

  const UNSEEN: Device := Device(None, None, map[])

  function Run(device: Device, txs: seq<Tx>): Device
    decreases |txs|
  {
    if txs == [] then device else Step(Run(device, txs[..|txs| - 1]), txs[|txs| - 1])
  }

  lemma UnseenIsValid()
    ensures Valid(UNSEEN.commands)
  {
  }

  lemma StepEvolves(device: Device, tx: Tx)
    requires Valid(device.commands)
    ensures Valid(Step(device, tx).commands) && Evolves(device.commands, Step(device, tx).commands)
  {
    hide Sync, Enqueue;
    match tx
    case SyncTx(report, now) => SyncEvolves(device, report, now);
    case SetModeTx(mode, now) =>
    case EnqueueTx(id, kind, now) => if id !in device.commands { EnqueueEvolves(device, id, kind, now); }
  }

  lemma {:induction false} RunIsValid(device: Device, txs: seq<Tx>)
    requires Valid(device.commands)
    ensures Valid(Run(device, txs).commands)
    decreases |txs|
  {
    if txs != [] {
      hide Step, Valid;
      RunIsValid(device, txs[..|txs| - 1]);
      StepEvolves(Run(device, txs[..|txs| - 1]), txs[|txs| - 1]);
    }
  }

  lemma StepKeepsClosed(device: Device, tx: Tx, id: string)
    requires Valid(device.commands) && id in device.commands && !IsOpen(device.commands[id])
    ensures id in Step(device, tx).commands && Step(device, tx).commands[id] == device.commands[id]
  {
    hide Step, Valid;
    StepEvolves(device, tx);
    assert MayBecome(device.commands[id], Step(device, tx).commands[id]);
  }

  /** A command that has succeeded, failed or expired stays exactly as it is through every later transaction. */
  lemma {:induction false} ClosedStaysClosed(device: Device, txs: seq<Tx>, id: string)
    requires Valid(device.commands) && id in device.commands && !IsOpen(device.commands[id])
    ensures id in Run(device, txs).commands && Run(device, txs).commands[id] == device.commands[id]
    decreases |txs|
  {
    if txs != [] {
      hide Step, Valid, IsOpen;
      ClosedStaysClosed(device, txs[..|txs| - 1], id);
      RunIsValid(device, txs[..|txs| - 1]);
      StepKeepsClosed(Run(device, txs[..|txs| - 1]), txs[|txs| - 1], id);
    }
  }

  // --------------------------------------------------------------- claims and leases

  /** A command handed out by a sync was pending, or its lease had lapsed; its new lease runs five minutes. */
  lemma HandedOutIsFree(device: Device, report: Report, now: int, id: string)
    requires Valid(device.commands) && id in Sync(device, report, now).1.handedOut
    ensures id in device.commands && IsOpen(device.commands[id]) && device.commands[id].expiresAt > now
    ensures device.commands[id].status == Claimed ==> device.commands[id].leaseExpiresAt.Some? && device.commands[id].leaseExpiresAt.value <= now
    ensures var after := Sync(device, report, now).0.commands[id];
            after.status == Claimed && after.leaseExpiresAt == Some(now + LEASE_MS)
  {
    FinishAllEvolves(device.commands, report.results, now);
    hide FinishAll, Valid, MayBecome;
    assert IsOpen(FinishAll(device.commands, report.results, now)[id]);
  }

  /** When a command was last handed out in a run of a new device. */
  function LastHandedOut(txs: seq<Tx>, id: string): Option<int>
    decreases |txs|
  {
    if txs == [] then None
    else
      var last := txs[|txs| - 1];
      if HandsOut(Run(UNSEEN, txs[..|txs| - 1]), last, id) then Some(last.now)
      else LastHandedOut(txs[..|txs| - 1], id)
  }

  /** A claimed command's lease runs from when it was last handed out; what was handed out is pending no more. */
  predicate LeaseFits(commands: Commands, id: string, last: Option<int>) {
    && (last.Some? ==> id in commands && commands[id].status != Pending)
    && (id in commands && commands[id].status == Claimed ==> last.Some? && commands[id].leaseExpiresAt == Some(last.value + LEASE_MS))
  }

  /** A sync leaves a command's lease alone unless it hands it out. */
  lemma SyncKeepsLease(device: Device, report: Report, now: int, id: string)
    requires Valid(device.commands) && id !in Sync(device, report, now).1.handedOut
    ensures var after := Sync(device, report, now).0.commands;
            && (id in after <==> id in device.commands)
            && (id in after && after[id].status == Claimed ==> after[id] == device.commands[id])
            && (id in after && after[id].status == Pending ==> device.commands[id].status == Pending)
  {
    FinishAllEvolves(device.commands, report.results, now);
    hide FinishAll, Valid, MayBecome;
    var finished := FinishAll(device.commands, report.results, now);
    assert id in finished ==> (IsOpen(finished[id]) ==> finished[id] == device.commands[id]);
  }

  lemma EnqueueKeepsLease(device: Device, newId: string, kind: Kind, now: int, id: string)
    requires newId !in device.commands
    ensures var after := Enqueue(device, newId, kind, now).commands;
            && (id in device.commands ==> id in after)
            && (id in after && after[id].status == Claimed ==> id in device.commands && after[id] == device.commands[id])
            && (id in after && after[id].status == Pending ==> id in device.commands ==> device.commands[id].status == Pending)
  {
  }

  predicate HandsOut(device: Device, tx: Tx, id: string) { tx.SyncTx? && id in Sync(device, tx.report, tx.now).1.handedOut }

  lemma StepKeepsLease(device: Device, tx: Tx, id: string, last: Option<int>)
    requires Valid(device.commands) && LeaseFits(device.commands, id, last)
    ensures LeaseFits(Step(device, tx).commands, id, if HandsOut(device, tx, id) then Some(tx.now) else last)
  {
    hide Sync, Enqueue, Valid;
    match tx
    case SyncTx(report, now) =>
      if HandsOut(device, tx, id) {
        HandedOutIsFree(device, report, now, id);
        SyncEvolves(device, report, now);
      } else {
        SyncKeepsLease(device, report, now, id);
      }
    case SetModeTx(mode, now) =>
    case EnqueueTx(newId, kind, now) => if newId !in device.commands { EnqueueKeepsLease(device, newId, kind, now, id); }
  }

  lemma {:induction false} LeasesFollowHandOuts(txs: seq<Tx>, id: string)
    ensures LeaseFits(Run(UNSEEN, txs).commands, id, LastHandedOut(txs, id))
    decreases |txs|
  {
    if txs != [] {
      var earlier, last := txs[..|txs| - 1], txs[|txs| - 1];
      hide Step, Valid, LeaseFits, HandsOut;
      LeasesFollowHandOuts(earlier, id);
      UnseenIsValid();
      RunIsValid(UNSEEN, earlier);
      StepKeepsLease(Run(UNSEEN, earlier), last, id, LastHandedOut(earlier, id));
    }
  }

  /** Between two times a command is handed out lie at least the five minutes of its lease. */
  lemma HandOutsAreApart(txs: seq<Tx>, report: Report, now: int, id: string)
    requires id in Sync(Run(UNSEEN, txs), report, now).1.handedOut && LastHandedOut(txs, id).Some?
    ensures now >= LastHandedOut(txs, id).value + 300_000
  {
    LeasesFollowHandOuts(txs, id);
    UnseenIsValid();
    RunIsValid(UNSEEN, txs);
    hide Run, Sync, LastHandedOut, Valid;
    HandedOutIsFree(Run(UNSEEN, txs), report, now, id);
  }

  // ---------------------------------------------------------------- the applied triple

  function Reports(txs: seq<Tx>): seq<Applied> {
    if txs == [] then []
    else Reports(txs[..|txs| - 1]) + if txs[|txs| - 1].SyncTx? then [txs[|txs| - 1].report.applied] else []
  }

  /** The latest of the reports with the greatest generation. */
  ghost predicate IsLatestGreatest(reports: seq<Applied>, k: nat) {
    && k < |reports|
    && (forall j :: 0 <= j < |reports| ==> reports[j].generation <= reports[k].generation)
    && forall j :: k < j < |reports| ==> reports[j].generation < reports[k].generation
  }

  lemma AppendReport(reports: seq<Applied>, k: nat, next: Applied)
    requires IsLatestGreatest(reports, k)
    ensures IsLatestGreatest(reports + [next], if next.generation >= reports[k].generation then |reports| else k)
  {
  }

  /** What is stored as applied is one whole report: the latest among those of the greatest generation. */
  lemma {:induction false} AppliedIsWholeReport(txs: seq<Tx>) returns (k: nat)
    ensures var reports := Reports(txs);
            var observation := Run(UNSEEN, txs).observation;
            if reports == [] then observation.None?
            else observation.Some? && IsLatestGreatest(reports, k) && observation.value.applied == reports[k]
    decreases |txs|
  {
    k := 0;
    if txs != [] {
      var earlier, last := txs[..|txs| - 1], txs[|txs| - 1];
      k := AppliedIsWholeReport(earlier);
      StepObserves(Run(UNSEEN, earlier), last);
      hide Step, IsLatestGreatest;
      if last.SyncTx? {
        var reports := Reports(earlier);
        if reports == [] {
          k := 0;
          OnlyReport(last.report.applied);
          assert Reports(txs) == [last.report.applied];
        } else {
          AppendReport(reports, k, last.report.applied);
          k := if last.report.applied.generation >= reports[k].generation then |reports| else k;
        }
      } else {
        assert Reports(txs) == Reports(earlier);
      }
    }
  }

  lemma StepObserves(device: Device, tx: Tx)
    ensures Step(device, tx).observation == if tx.SyncTx? then Some(Observed(device.observation, tx.report, tx.now)) else device.observation
  {
    hide FinishAll, Expire, Claim, Claimable;
  }

  lemma OnlyReport(applied: Applied)
    ensures IsLatestGreatest([applied], 0)
  {
  }

  // ---------------------------------------------------------------- the wanted mode

  function ModeChanges(txs: seq<Tx>): nat {
    if txs == [] then 0 else ModeChanges(txs[..|txs| - 1]) + if txs[|txs| - 1].SetModeTx? then 1 else 0
  }

  /** The first transaction that needs a policy is a sync, which then starts it. */
  function StartedBySync(txs: seq<Tx>): Option<bool> {
    if txs == [] then None
    else
      var earlier := StartedBySync(txs[..|txs| - 1]);
      if earlier.Some? || txs[|txs| - 1].EnqueueTx? then earlier else Some(txs[|txs| - 1].SyncTx?)
  }

  /** The last mode asked for, if one was. */
  function LastMode(txs: seq<Tx>): Option<(Mode, Option<int>)> {
    if txs == [] then None
    else
      var last := txs[|txs| - 1];
      if last.SetModeTx? then Some((last.mode, if last.mode == ServerV1 then Some(last.now) else None)) else LastMode(txs[..|txs| - 1])
  }

  /**
   * The generation counts the mode changes, and one more when a sync came first: every change of mode raises
   * it by one, nothing else does. The mode wanted is the last one asked for, or else what the first sync reported.
   */
  lemma {:induction false} GenerationCountsChanges(txs: seq<Tx>)
    ensures var policy := Run(UNSEEN, txs).policy;
            && (policy.None? <==> StartedBySync(txs).None?)
            && (policy.None? ==> ModeChanges(txs) == 0 && LastMode(txs).None? && Reports(txs) == [])
            && (policy.Some? ==>
                  && policy.value.generation == ModeChanges(txs) + (if StartedBySync(txs) == Some(true) then 1 else 0)
                  && if LastMode(txs).Some? then (policy.value.mode, policy.value.since) == LastMode(txs).value
                     else Reports(txs) != [] && (policy.value.mode, policy.value.since) == (Reports(txs)[0].mode, Reports(txs)[0].since))
    decreases |txs|
  {
    if txs != [] {
      GenerationCountsChanges(txs[..|txs| - 1]);
      hide FinishAll, Expire, Claim, Claimable, Observed;
    }
  }

  /**
   * What a device is told to adopt, after any run: the policy as it is then stored, whose generation counts the
   * mode changes, and whose mode and start are those asked for last, or those of the device's own first report as
   * long as none was asked for.
   */
  lemma ReplyIsWantedPolicy(txs: seq<Tx>, report: Report, now: int)
    ensures var (after, reply) := Sync(Run(UNSEEN, txs), report, now);
            var first := if Reports(txs) == [] then report.applied else Reports(txs)[0];
            && after.policy == Some(reply.desired)
            && reply.desired.generation == ModeChanges(txs) + (if StartedBySync(txs) == Some(false) then 0 else 1)
            && reply.desired.mode == (if LastMode(txs).Some? then LastMode(txs).value.0 else first.mode)
            && reply.desired.since == (if LastMode(txs).Some? then LastMode(txs).value.1 else first.since)
  {
    GenerationCountsChanges(txs);
    hide Run, FinishAll, Expire, Claim, Claimable, Observed;
    if StartedBySync(txs).Some? && StartedBySync(txs) != Some(false) { assert StartedBySync(txs).value; }
  }

  /** What is stored of a device besides the applied triple is what it reported last. */
  lemma LastReportIsKept(device: Device, report: Report, now: int)
    ensures var seen := Sync(device, report, now).0.observation;
            && seen.Some? && seen.value.host == report.host && seen.value.shimVersion == report.shimVersion
            && seen.value.daemonActive == report.daemonActive && seen.value.errorCode == report.errorCode && seen.value.lastSyncAt == now
  {
    hide FinishAll, Expire, Claim, Claimable;
  }

  /** A command that is added can be claimed for ten minutes, and is handed out for five by the next sync. */
  lemma NewCommandIsHandedOut(device: Device, id: string, kind: Kind, now: int, report: Report, later: int)
    requires Valid(device.commands) && id !in device.commands && OpenOf(Expire(device.commands, now), kind) == {}
    ensures Step(device, EnqueueTx(id, kind, now)) == Enqueue(device, id, kind, now)
    ensures var added := Enqueue(device, id, kind, now);
            var (after, reply) := Sync(added, report, later);
            && added.commands[id] == Command(kind, Pending, None, now, now + 600_000, None, None, None)
            && (id in reply.handedOut <==> later < now + 600_000)
            && id in after.commands && after.commands[id] ==
                 if later < now + 600_000 then Command(kind, Claimed, None, now, now + 600_000, Some(later), Some(later + 300_000), None)
                 else Command(kind, Expired, Some("command_expired"), now, now + 600_000, None, None, Some(later))
  {
    var added := Enqueue(device, id, kind, now);
    SyncOutcome(added, report, later, id);
    FirstResultCounts(added.commands, report.results, later, id);
    hide FinishAll, FirstResult;
  }

  // ----------------------------------------------------------------- the repository

  class DeviceControlRepository {
    var known: bool
    var policy: Option<Policy>
    var observation: Option<Observation>
    var commands: Commands

    ghost function View(): Device reads this { Device(policy, observation, commands) }

    /** `known`: the device has sent an inventory under this owner. */
    constructor (known: bool)
      ensures View() == UNSEEN && this.known == known
    {
      this.known := known;
      policy, observation, commands := None, None, map[];
    }

    method FinishCommands(results: seq<CommandResult>, now: int)
      modifies this`commands
      ensures commands == FinishAll(old(commands), results, now)
    {
      hide Finished;
      for n := 0 to |results|
        invariant commands == FinishAll(old(commands), results[..n], now)
      {
        assert results[..n + 1][..n] == results[..n];
        commands := Finished(commands, results[n], now);
      }
      assert results[..|results|] == results;
    }

    /** Results, observation, a first policy, expiry, and what may be handed out, in one transaction. */
    method SyncDevice(report: Report, now: int) returns (reply: Option<Reply>)
      requires Valid(commands)
      modifies this`policy, this`observation, this`commands
      ensures Valid(commands) && (reply.Some? <==> known)
      ensures known ==> (View(), reply.value) == Sync(old(View()), report, now)
      ensures !known ==> View() == old(View())
    {
      if !known { return None; }
      hide Valid, FinishAll;
      SyncEvolves(View(), report, now);
      FinishCommands(report.results, now);
      observation := Some(Observed(observation, report, now));
      if policy.None? { policy := Some(Policy(1, report.applied.mode, report.applied.since)); }
      commands := Expire(commands, now);
      var ids := Claimable(commands, now);
      commands := Claim(commands, ids, now);
      return Some(Reply(policy.value, ids));
    }

    method SetDesiredContentMode(mode: Mode, now: int) returns (done: bool)
      modifies this`policy
      ensures done == known
      ensures View() == if known then SetMode(old(View()), mode, now) else old(View())
    {
      if !known { return false; }
      var generation := if policy.Some? then policy.value.generation + 1 else 1;
      policy := Some(Policy(generation, mode, if mode == ServerV1 then Some(now) else None));
      return true;
    }

    /** Answers with the new command, or with the open one of the kind; with an unused id it never fails. */
    method EnqueueCommand(id: string, kind: Kind, now: int) returns (answer: Option<string>)
      requires Valid(commands) && id !in commands
      modifies this`commands
      ensures Valid(commands) && (answer.Some? <==> known)
      ensures View() == if known then Enqueue(old(View()), id, kind, now) else old(View())
      ensures known ==>
        && answer.value in commands && commands[answer.value].kind == kind
        && IsOpen(commands[answer.value]) && commands[answer.value].expiresAt > now
    {
      if !known { return None; }
      EnqueueEvolves(View(), id, kind, now);
      EnqueueFindsOpen(View(), id, kind, now);
      ExpireKeeps(commands, now);
      hide Valid;
      commands := Expire(commands, now);
      if OpenOf(commands, kind) == {} { commands := commands[id := New(kind, now)]; }
      var k :| k in commands && commands[k].kind == kind && IsOpen(commands[k]) && commands[k].expiresAt > now;
      return Some(k);
    }
  }
}

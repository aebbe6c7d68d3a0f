/**
 * The job row and its candidate rows as the repository updates them, one transaction a method
 * (apps/web/lib/pricing-history.ts).
 */
module PricingRepository {
  import opened Prelude
  import opened PricingModel
  import opened PricingCandidates
  import Jobs = PricingRecoveryJob

  type Candidates = map<string, map<int, Row>>

  function RowsIn(candidates: Candidates, model: string): map<int, Row> {
    if model in candidates then candidates[model] else map[]
  }

  function OpenIn(open: map<string, OpenRow>, model: string): Option<OpenRow> {
    if model in open then Some(open[model]) else None
  }

  /** One model as a batch in progress sees it. */
  function WorkIn(candidates: Candidates, open: map<string, OpenRow>, seen: set<string>, model: string): Work {
    Work(RowsIn(candidates, model), OpenIn(open, model), model in seen)
  }

  ghost predicate Distinct(models: seq<string>) {
    forall i, j :: 0 <= i < j < |models| ==> models[i] != models[j]
  }

  /** One model's turn in the loop over the job's models. */
  method ApplyModel(candidates: Candidates, open: map<string, OpenRow>, seen: set<string>, range: Range, model: string,
                    snapshot: Snapshot, boundary: int, committedAt: int)
    returns (candidates': Candidates, open': map<string, OpenRow>, seen': set<string>)
    ensures WorkIn(candidates', open', seen', model) ==
      Step(WorkIn(candidates, open, seen, model), Resolve(snapshot, model), range, boundary, snapshot.ref.sha, committedAt)
    ensures forall m: string | m != model :: WorkIn(candidates', open', seen', m) == WorkIn(candidates, open, seen, m)
    ensures candidates'.Keys <= candidates.Keys + {model}
  {
    hide CloseRow, Unchanged, Resolve, Normalized;
    candidates', open', seen' := candidates, open, seen;
    var resolved := Resolve(snapshot, model);
    if model in open && resolved.Some? && Unchanged(open[model], resolved.value) {
      return;
    }
    if model in open {
      candidates' := candidates'[model := CloseRow(RowsIn(candidates, model), open[model].effectiveAt, boundary)];
      open' := open' - {model};
    }
    var effectiveAt := if model in seen then boundary else range.from;
    if resolved.None? || effectiveAt >= range.to { return; }
    var quote := Quote(resolved.value.sourceModelId, Normalized(resolved.value.price));
    var row := Row(quote, None, snapshot.ref.sha, committedAt);
    candidates' := candidates'[model := RowsIn(candidates', model)[effectiveAt := row]];
    open' := open'[model := OpenRow(effectiveAt, quote)];
    seen' := seen' + {model};
  }

  ghost function Stepped(work: Work, model: string, models: seq<string>, snapshot: Snapshot, range: Range): Work
    requires snapshot.ref.committedAt.Some?
  {
    if model in models then StepSnapshot(work, snapshot, model, range) else work
  }

  ghost function AppliedTo(work: Work, model: string, models: seq<string>, snapshots: seq<Snapshot>, range: Range): Work
    requires Timed(snapshots)
  {
    if model in models then Apply(work, snapshots, model, range) else work
  }

  lemma AppliedNext(work: Work, model: string, models: seq<string>, snapshots: seq<Snapshot>, n: nat, range: Range)
    requires Timed(snapshots) && n < |snapshots|
    ensures AppliedTo(work, model, models, snapshots[..n + 1], range) ==
      Stepped(AppliedTo(work, model, models, snapshots[..n], range), model, models, snapshots[n], range)
  {
    assert snapshots[..n + 1][..n] == snapshots[..n];
  }

  method ApplySnapshot(candidates: Candidates, open: map<string, OpenRow>, seen: set<string>, range: Range, models: seq<string>,
                       snapshot: Snapshot)
    returns (candidates': Candidates, open': map<string, OpenRow>, seen': set<string>)
    requires Distinct(models) && snapshot.ref.committedAt.Some?
    ensures forall m: string :: WorkIn(candidates', open', seen', m) == Stepped(WorkIn(candidates, open, seen, m), m, models, snapshot, range)
    ensures candidates'.Keys <= candidates.Keys + set m | m in models
  {
    var committedAt := snapshot.ref.committedAt.value;
    var boundary := if committedAt < range.from then range.from else committedAt;
    assert boundary == Boundary(range.from, committedAt);
    candidates', open', seen' := candidates, open, seen;
    hide WorkIn, Step, Resolve;
    for n := 0 to |models|
      invariant forall m: string :: WorkIn(candidates', open', seen', m) == Stepped(WorkIn(candidates, open, seen, m), m, models[..n], snapshot, range)
      invariant candidates'.Keys <= candidates.Keys + set m | m in models
    {
      assert models[..n + 1] == models[..n] + [models[n]];
      candidates', open', seen' := ApplyModel(candidates', open', seen', range, models[n], snapshot, boundary, committedAt);
    }
    assert models[..|models|] == models;
  }

  /** What a new batch reads back: the open row of every model, and the models with rows. */
  method LoadBatch(candidates: Candidates) returns (open: map<string, OpenRow>, seen: set<string>)
    requires forall m: string :: OneOpen(RowsIn(candidates, m))
    ensures forall m: string :: WorkIn(candidates, open, seen, m) == Load(RowsIn(candidates, m))
  {
    open, seen := map[], set m | m in candidates && candidates[m] != map[];
    var models := candidates.Keys;
    while models != {}
      invariant models <= candidates.Keys
      invariant forall m: string | m in models :: m !in open
      invariant forall m: string | m !in models :: OpenIn(open, m) == LoadOpen(RowsIn(candidates, m))
      decreases models
    {
      var model :| model in models;
      var rows := candidates[model];
      assert rows == RowsIn(candidates, model);
      if e :| e in rows && rows[e].validUntil.None? {
        assert IsOpen(rows, e);
        open := open[model := OpenRow(e, rows[e].quote)];
      } else {
        assert forall e :: !IsOpen(rows, e);
      }
      models := models - {model};
    }
  }

  method ApplyBatch(candidates: Candidates, range: Range, models: seq<string>, snapshots: seq<Snapshot>) returns (candidates': Candidates)
    requires Distinct(models) && Timed(snapshots)
    requires forall m: string :: OneOpen(RowsIn(candidates, m))
    ensures forall m: string :: RowsIn(candidates', m) == AppliedTo(Load(RowsIn(candidates, m)), m, models, snapshots, range).rows
    ensures candidates'.Keys <= candidates.Keys + set m | m in models
  {
    hide OneOpen, Load, StepSnapshot;
    var open, seen := LoadBatch(candidates);
    candidates' := candidates;
    assert forall m: string :: AppliedTo(Load(RowsIn(candidates, m)), m, models, [], range) == Load(RowsIn(candidates, m));
    hide AppliedTo, Stepped, Apply;
    for n := 0 to |snapshots|
      invariant forall m: string :: WorkIn(candidates', open, seen, m) == AppliedTo(Load(RowsIn(candidates, m)), m, models, snapshots[..n], range)
      invariant candidates'.Keys <= candidates.Keys + set m | m in models
    {
      forall m: string
        ensures AppliedTo(Load(RowsIn(candidates, m)), m, models, snapshots[..n + 1], range) ==
          Stepped(AppliedTo(Load(RowsIn(candidates, m)), m, models, snapshots[..n], range), m, models, snapshots[n], range)
      {
        AppliedNext(Load(RowsIn(candidates, m)), m, models, snapshots, n, range);
      }
      candidates', open, seen := ApplySnapshot(candidates', open, seen, range, models, snapshots[n]);
    }
    assert snapshots[..|snapshots|] == snapshots;
    forall m: string ensures RowsIn(candidates', m) == WorkIn(candidates', open, seen, m).rows {}
  }

  /** The last statement of a finished batch, over all models. */
  function FinishAll(candidates: Candidates, to: int): (finished: Candidates)
    ensures forall m: string :: RowsIn(finished, m) == Finish(RowsIn(candidates, m), to)
  {
    map m | m in candidates :: Finish(candidates[m], to)
  }

  ghost predicate AllOneOpen(candidates: Candidates) { forall m: string :: OneOpen(RowsIn(candidates, m)) }

  /** The table is the one the saved batches make, and holds no rows of other models. */
  ghost predicate FollowsBatches(candidates: Candidates, batches: seq<seq<Snapshot>>, models: seq<string>, range: Range, finished: bool) {
    && (forall k :: 0 <= k < |batches| ==> Timed(batches[k]))
    && forall m: string :: RowsIn(candidates, m) == if m in models then TableRows(batches, m, range, finished) else map[]
  }

  /** The table after one more batch, model by model. */
  ghost predicate BatchSaved(before: Candidates, after: Candidates, snapshots: seq<Snapshot>, models: seq<string>, range: Range, finished: bool)
    requires Timed(snapshots)
  {
    forall m: string :: RowsIn(after, m) == if m in models then Saved(RowsIn(before, m), snapshots, m, range, finished) else map[]
  }

  lemma BatchKeepsTable(before: Candidates, after: Candidates, batches: seq<seq<Snapshot>>, snapshots: seq<Snapshot>,
                        models: seq<string>, range: Range, finished: bool)
    requires Timed(snapshots) && AllOneOpen(before) && FollowsBatches(before, batches, models, range, false)
    requires BatchSaved(before, after, snapshots, models, range, finished)
    ensures AllOneOpen(after) && FollowsBatches(after, batches + [snapshots], models, range, finished)
  {
    hide Saved, OneOpen, SavedInBatches;
    EmptyIsOneOpen();
    assert (batches + [snapshots])[..|batches|] == batches;
    forall m: string
      ensures OneOpen(RowsIn(after, m))
      ensures RowsIn(after, m) == if m in models then TableRows(batches + [snapshots], m, range, finished) else map[]
    {
      SavedKeepsOneOpen(RowsIn(before, m), snapshots, m, range, finished);
      LastBatch(batches, snapshots, m, range, finished);
    }
  }

  lemma FetchPrefixFrom(refs: seq<Ref>, n: nat, fetch: string -> Jobs.Fetched)
    requires n <= |refs|
    ensures Jobs.FetchPrefix(refs[n..], fetch) ==
      if n < |refs| && fetch(refs[n].sha).Pricing?
      then [Snapshot(refs[n], fetch(refs[n].sha).pricing)] + Jobs.FetchPrefix(refs[n + 1..], fetch)
      else []
  {
    if n < |refs| {
      assert refs[n..][1..] == refs[n + 1..] && refs[n..][0] == refs[n];
    }
  }

  /** Fetches ref after ref until the source has no price list for one. */
  method FetchSnapshots(refs: seq<Ref>, fetch: string -> Jobs.Fetched) returns (snapshots: seq<Snapshot>, stop: Option<Jobs.Fetched>)
    ensures snapshots == Jobs.FetchPrefix(refs, fetch) && |snapshots| <= |refs|
    ensures stop == if |snapshots| < |refs| then Some(fetch(refs[|snapshots|].sha)) else None
  {
    snapshots := [];
    FetchPrefixFrom(refs, |refs|, fetch);
    hide Jobs.FetchPrefix;
    assert refs[0..] == refs;
    for n := 0 to |refs|
      invariant |snapshots| == n && Jobs.FetchPrefix(refs, fetch) == snapshots + Jobs.FetchPrefix(refs[n..], fetch)
    {
      FetchPrefixFrom(refs, n, fetch);
      match fetch(refs[n].sha)
      case Pricing(pricing) =>
        ghost var rest := Jobs.FetchPrefix(refs[n + 1..], fetch);
        assert snapshots + ([Snapshot(refs[n], pricing)] + rest) == (snapshots + [Snapshot(refs[n], pricing)]) + rest;
        snapshots := snapshots + [Snapshot(refs[n], pricing)];
      case other => return snapshots, Some(other);
    }
    return snapshots, None;
  }

  class PricingHistoryRepository {
    var job: Jobs.Job
    var candidates: Candidates
    /** What the steps so far did, the batches they saved, and whether the last ref was saved. */
    ghost var log: seq<Jobs.Event>
    ghost var batches: seq<seq<Snapshot>>
    ghost var finished: bool
    /** What the source answered in the steps so far. */
    ghost var envs: seq<Jobs.Env>

    ghost predicate Valid() reads this {
      && Distinct(job.models)
      && Jobs.Valid(job, log)
      && AllOneOpen(candidates)
      && FollowsBatches(candidates, batches, job.models, job.range, finished)
      && Flatten(batches) == Jobs.AppliedSnapshots(log)
      && (Jobs.Phase(job) in {Jobs.Promoting, Jobs.Completed} ==> (finished <==> LastIsSaved(log)))
      && (finished ==> Jobs.Phase(job) in {Jobs.Promoting, Jobs.Completed})
    }

    /** The job is where its steps so far, with these answers of the source, have brought it. */
    ghost predicate Ran() reads this { (job, log) == Jobs.Run(Jobs.Created(job.range, job.models), envs) }

    constructor (range: Range, models: seq<string>)
      requires Distinct(models)
      ensures Valid() && Ran() && job == Jobs.Created(range, models) && log == []
    {
      job, candidates, log, batches, finished, envs := Jobs.Created(range, models), map[], [], [], false, [];
    }

    /** One transaction: the batch goes into the table and the cursor moves past it, or nothing changes. */
    method SaveSnapshots(snapshots: seq<Snapshot>) returns (saved: bool)
      requires Valid() && snapshots != []
      modifies this`job, this`candidates
      ensures saved <==>
        && old(job).state == Jobs.Fetching
        && old(job).nextCommitIndex + |snapshots| <= |old(job).commitRefs|
        && (forall k :: 0 <= k < |snapshots| ==> snapshots[k].ref.sha == old(job).commitRefs[old(job).nextCommitIndex + k].sha)
        && Jobs.AllTimed(snapshots)
      ensures !saved ==> job == old(job) && candidates == old(candidates)
      ensures saved ==> job == Jobs.Advanced(old(job), |snapshots|)
      ensures saved ==> BatchSaved(old(candidates), candidates, snapshots, job.models, job.range, job.state == Jobs.Promoting)
    {
      if job.state != Jobs.Fetching || job.nextCommitIndex + |snapshots| > |job.commitRefs| { return false; }
      if exists k :: 0 <= k < |snapshots| && snapshots[k].ref.sha != job.commitRefs[job.nextCommitIndex + k].sha { return false; }
      if !Jobs.AllTimed(snapshots) { return false; }
      assert !finished;
      hide Apply, Load, OneOpen, Jobs.Valid, SavedInBatches;
      var updated := ApplyBatch(candidates, job.range, job.models, snapshots);
      forall m: string | m !in job.models ensures RowsIn(updated, m) == map[] && Finish(map[], job.range.to) == map[] {
        assert RowsIn(candidates, m) == map[];
        EmptyLoad();
      }
      if job.nextCommitIndex + |snapshots| == |job.commitRefs| { updated := FinishAll(updated, job.range.to); }
      candidates := updated;
      job := Jobs.Advanced(job, |snapshots|);
      return true;
    }

    /** Saving for the log: the events of a saved batch and the batch itself. */
    method SaveAndLog(snapshots: seq<Snapshot>, now: int) returns (saved: bool)
      requires Valid() && job.state == Jobs.Fetching && snapshots != []
      requires job.nextCommitIndex + |snapshots| <= |job.commitRefs|
      requires forall k :: 0 <= k < |snapshots| ==> snapshots[k].ref == job.commitRefs[job.nextCommitIndex + k]
      modifies this`job, this`candidates, this`log, this`batches, this`finished
      ensures Valid() && saved == Jobs.AllTimed(snapshots)
      ensures job == Jobs.SaveOrWait(old(job), snapshots, now).0
      ensures log == old(log) + Jobs.SaveOrWait(old(job), snapshots, now).1
    {
      hide Jobs.Valid, AllOneOpen, FollowsBatches, BatchSaved, Flatten, Jobs.AppliedSnapshots, Jobs.AppliedEvents, Jobs.RetryAt;
      Jobs.SaveOrWaitKeepsValid(job, log, snapshots, now);
      saved := SaveSnapshots(snapshots);
      if !saved {
        job := Jobs.Wait(job, now, Jobs.SOURCE_ERROR, None);
        log := log + [Jobs.Failed];
        NotAppliedKeepsSnapshots(old(log), Jobs.Failed);
        return;
      }
      AppliedIsSaved(log, snapshots);
      log := log + Jobs.AppliedEvents(snapshots);
      batches := batches + [snapshots];
      finished := job.state == Jobs.Promoting;
      AppliedKeepsSnapshots(old(log), old(batches), snapshots);
      BatchKeepsTable(old(candidates), candidates, old(batches), snapshots, job.models, job.range, finished);
    }

    /** Skips the ref at the cursor. */
    method SkipSnapshot(ref: Ref) returns (skipped: bool)
      modifies this`job
      ensures skipped <==>
        && old(job).state == Jobs.Fetching && old(job).nextCommitIndex < |old(job).commitRefs|
        && old(job).commitRefs[old(job).nextCommitIndex].sha == ref.sha
      ensures job == if skipped then Jobs.SkippedOne(old(job)) else old(job)
    {
      skipped := job.state == Jobs.Fetching && job.nextCommitIndex < |job.commitRefs| && job.commitRefs[job.nextCommitIndex].sha == ref.sha;
      if skipped { job := Jobs.SkippedOne(job); }
    }

    /** Records a step that applied nothing. */
    method Record(next: Jobs.Job, event: Jobs.Event)
      requires Valid() && !event.Applied? && Jobs.Valid(next, log + [event])
      requires next.range == job.range && next.models == job.models && !finished
      modifies this`job, this`log
      ensures Valid() && job == next && log == old(log) + [event]
    {
      hide Jobs.Valid, FollowsBatches, AllOneOpen, Flatten, Jobs.AppliedSnapshots;
      NotAppliedKeepsSnapshots(log, event);
      job, log := next, log + [event];
    }

    method RunFetching(env: Jobs.Env)
      requires Valid() && job.state == Jobs.Fetching
      modifies this`job, this`candidates, this`log, this`batches, this`finished
      ensures Valid() && job == Jobs.StepFetching(old(job), env).0 && log == old(log) + Jobs.StepFetching(old(job), env).1
    {
      hide Jobs.Valid, Flatten, Jobs.AppliedSnapshots, FollowsBatches, AllOneOpen, Jobs.RetryAt, Jobs.Wait, Jobs.SaveOrWait, Jobs.SaveAndSkip;
      CursorIsInside(job, log);
      Jobs.FetchedAtCursor(job, env.fetch);
      var refs := Jobs.NextRefs(job);
      hide Jobs.FetchPrefix, Jobs.NextRefs;
      var snapshots, stop := FetchSnapshots(refs, env.fetch);
      if stop.None? {
        var saved := SaveAndLog(snapshots, env.now);
      } else if stop.value.NotFetched? {
        WaitAndLog(env.now, stop.value.error, stop.value.resetAt);
      } else if job.consecutiveFailures < Jobs.SKIP_AFTER_FAILURES {
        WaitAndLog(env.now, Jobs.SOURCE_ERROR, None);
      } else {
        SaveThenSkip(snapshots, refs[|snapshots|], env.now);
      }
    }

    method RunPending(env: Jobs.Env)
      requires Valid() && job.state == Jobs.Pending
      modifies this`job, this`candidates, this`log, this`batches, this`finished
      ensures Valid() && job == Jobs.StepPending(old(job), env).0 && log == old(log) + Jobs.StepPending(old(job), env).1
    {
      Jobs.StepPendingKeepsValid(job, log, env);
      hide Jobs.Valid, Flatten, Jobs.AppliedSnapshots, FollowsBatches, AllOneOpen, Jobs.Wait;
      match env.baseline
      case Unavailable(error, resetAt) => WaitAndLog(env.now, error, resetAt);
      case Replied(refs) =>
        if refs == [] {
          WaitAndLog(env.now, "pricing history baseline unavailable", None);
        } else {
          Record(Jobs.BaselineSaved(job, refs[..1]), Jobs.Listed);
        }
    }

    method RunListing(env: Jobs.Env)
      requires Valid() && job.state == Jobs.Listing
      modifies this`job, this`candidates, this`log, this`batches, this`finished
      ensures Valid() && job == Jobs.StepListing(old(job), env).0 && log == old(log) + Jobs.StepListing(old(job), env).1
    {
      Jobs.StepListingKeepsValid(job, log, env);
      hide Jobs.Valid, Flatten, Jobs.AppliedSnapshots, FollowsBatches, AllOneOpen, Jobs.Wait, Jobs.ExecutionOrder, Jobs.AppendUnique;
      match env.page
      case Unavailable(error, resetAt) => WaitAndLog(env.now, error, resetAt);
      case Replied(page) =>
        var refs := Jobs.AppendUnique(job.commitRefs, page);
        if |page| < Jobs.PAGE_SIZE {
          Record(Jobs.PageSaved(job, Jobs.ExecutionOrder(refs), None), Jobs.Listed);
        } else {
          Record(Jobs.PageSaved(job, refs, Some(job.listPage + 1)), Jobs.Listed);
        }
    }

    method WaitAndLog(now: int, error: string, resetAt: Option<int>)
      requires Valid() && job.state in {Jobs.Pending, Jobs.Listing, Jobs.Fetching}
      modifies this`job, this`log
      ensures Valid() && job == Jobs.Wait(old(job), now, error, resetAt) && log == old(log) + [Jobs.Failed]
    {
      Jobs.WaitKeepsValid(job, log, now, error, resetAt);
      hide Jobs.RetryAt;
      Record(Jobs.Wait(job, now, error, resetAt), Jobs.Failed);
    }

    method SaveThenSkip(snapshots: seq<Snapshot>, ref: Ref, now: int)
      requires Valid() && job.state == Jobs.Fetching && job.nextCommitIndex + |snapshots| < |job.commitRefs|
      requires forall k :: 0 <= k < |snapshots| ==> snapshots[k].ref == job.commitRefs[job.nextCommitIndex + k]
      requires ref == job.commitRefs[job.nextCommitIndex + |snapshots|]
      modifies this`job, this`candidates, this`log, this`batches, this`finished
      ensures Valid() && job == Jobs.SaveAndSkip(old(job), snapshots, ref, now).0
      ensures log == old(log) + Jobs.SaveAndSkip(old(job), snapshots, ref, now).1
    {
      hide Flatten, Jobs.AppliedSnapshots, FollowsBatches, AllOneOpen, Jobs.RetryAt, Jobs.AppliedEvents;
      ghost var events := if snapshots == [] then [] else Jobs.SaveOrWait(job, snapshots, now).1;
      if snapshots != [] {
        var saved := SaveAndLog(snapshots, now);
        if !saved { return; }
      }
      assert snapshots == [] ==> log == old(log) + events;
      Jobs.SkipKeepsValid(job, log);
      ghost var before := job;
      NotAppliedKeepsSnapshots(log, Jobs.Skipped(ref));
      assert (old(log) + events) + [Jobs.Skipped(ref)] == old(log) + (events + [Jobs.Skipped(ref)]);
      assert !finished;
      var skipped := SkipSnapshot(ref);
      log := log + [Jobs.Skipped(ref)];
    }

    /** One step of the recovery. */
    method RunStep(env: Jobs.Env)
      requires Valid() && Ran()
      modifies this
      ensures Valid() && Ran() && envs == old(envs) + [env]
      ensures job == Jobs.Step(old(job), env).0 && log == old(log) + Jobs.Step(old(job), env).1
    {
      RunNext(Jobs.Created(job.range, job.models), envs, env);
      Jobs.StepKeepsRange(job, env);
      hide Jobs.Run;
      TakeStep(env);
      envs := envs + [env];
    }

    method TakeStep(env: Jobs.Env)
      requires Valid()
      modifies this`job, this`candidates, this`log, this`batches, this`finished
      ensures Valid() && job == Jobs.Step(old(job), env).0 && log == old(log) + Jobs.Step(old(job), env).1
    {
      Jobs.StepKeepsValid(job, log, env);
      hide Jobs.Valid, Flatten, Jobs.AppliedSnapshots, FollowsBatches, AllOneOpen, Jobs.StepFetching, Jobs.StepPending, Jobs.StepListing;
      assert log + [] == log;
      match job.state
      case WaitingSource =>
        if job.nextAttemptAt.Some? && job.nextAttemptAt.value > env.now { return; }
        job := Jobs.Resumed(job);
      case Pending => RunPending(env);
      case Listing => RunListing(env);
      case Fetching => RunFetching(env);
      case Promoting => job := Jobs.Done(job);
      case Completed =>
    }
  }

  /** The last ref was saved, not skipped. */
  predicate LastIsSaved(log: seq<Jobs.Event>) { log != [] && log[|log| - 1].Applied? }

  lemma AppliedIsSaved(log: seq<Jobs.Event>, snapshots: seq<Snapshot>)
    requires snapshots != []
    ensures LastIsSaved(log + Jobs.AppliedEvents(snapshots))
  {
    var all := log + Jobs.AppliedEvents(snapshots);
    assert all[|all| - 1] == Jobs.Applied(snapshots[|snapshots| - 1]);
  }

  lemma RunNext(job: Jobs.Job, envs: seq<Jobs.Env>, env: Jobs.Env)
    ensures var (before, log) := Jobs.Run(job, envs);
            var (after, events) := Jobs.Step(before, env);
            Jobs.Run(job, envs + [env]) == (after, log + events)
  {
    assert (envs + [env])[..|envs|] == envs;
  }

  lemma CursorIsInside(job: Jobs.Job, log: seq<Jobs.Event>)
    requires Jobs.Valid(job, log) && job.state == Jobs.Fetching
    ensures job.nextCommitIndex < |job.commitRefs|
  {
  }

  lemma NotAppliedKeepsSnapshots(log: seq<Jobs.Event>, event: Jobs.Event)
    requires !event.Applied?
    ensures Jobs.AppliedSnapshots(log + [event]) == Jobs.AppliedSnapshots(log)
  {
    assert (log + [event])[..|log|] == log;
  }

  lemma {:induction false} AppliedSnapshotsOf(log: seq<Jobs.Event>, snapshots: seq<Snapshot>)
    ensures Jobs.AppliedSnapshots(log + Jobs.AppliedEvents(snapshots)) == Jobs.AppliedSnapshots(log) + snapshots
    decreases |snapshots|
  {
    var events := Jobs.AppliedEvents(snapshots);
    if snapshots == [] {
      assert log + events == log;
    } else {
      var last := |snapshots| - 1;
      AppliedSnapshotsOf(log, snapshots[..last]);
      assert (log + events)[..|log + events| - 1] == log + Jobs.AppliedEvents(snapshots[..last]);
      assert (log + events)[|log + events| - 1] == Jobs.Applied(snapshots[last]);
      assert snapshots == snapshots[..last] + [snapshots[last]];
    }
  }

  lemma AppliedKeepsSnapshots(log: seq<Jobs.Event>, batches: seq<seq<Snapshot>>, snapshots: seq<Snapshot>)
    requires Flatten(batches) == Jobs.AppliedSnapshots(log)
    ensures Flatten(batches + [snapshots]) == Jobs.AppliedSnapshots(log + Jobs.AppliedEvents(snapshots))
  {
    AppliedSnapshotsOf(log, snapshots);
    assert (batches + [snapshots])[..|batches|] == batches;
  }

  lemma EmptyIsOneOpen()
    ensures OneOpen(map[])
  {
  }

  lemma LastBatch(batches: seq<seq<Snapshot>>, batch: seq<Snapshot>, model: string, range: Range, finished: bool)
    requires Timed(batch) && forall k :: 0 <= k < |batches| ==> Timed(batches[k])
    ensures TableRows(batches + [batch], model, range, finished) == Saved(SavedInBatches(batches, model, range), batch, model, range, finished)
  {
    assert (batches + [batch])[..|batches|] == batches;
  }

  lemma EmptyLoad()
    ensures Load(map[]) == NOTHING
  {
  }

  /** The applied snapshots come into force one after the other. */
  lemma AppliedComeInSequence(repository: PricingHistoryRepository)
    requires repository.Valid() && repository.Ran()
    requires Jobs.SourceInOrder(repository.job.range, repository.job.models, repository.envs)
    ensures InSequence(Flatten(repository.batches), repository.job.range)
  {
    Jobs.HandledInSequence(repository.job.range, repository.job.models, repository.envs);
    hide Jobs.Run, Jobs.SourceInOrder, InSequence, Jobs.RefsInSequence, Jobs.Handled, Jobs.Valid, FollowsBatches, AllOneOpen;
    Jobs.AppliedInSequence(repository.log, repository.job.range);
  }

  /**
   * In every run whose source names a baseline not after the range start and pages newest first, whatever fails,
   * is skipped or restarted: once the job promotes, every ref the source named was dealt with once. What is promoted of a model quotes
   * at every instant of the range the naive rule over the applied snapshots, the first price extended back, exactly
   * when no batch forgot the model, if the last ref was saved, and exactly when the unfinished table allows it, if it
   * was skipped.
   */
  lemma PromotionRecoversIff(repository: PricingHistoryRepository, model: string)
    requires repository.Valid() && repository.Ran() && model in repository.job.models
    requires repository.job.state in {Jobs.Promoting, Jobs.Completed} && repository.job.range.from < repository.job.range.to
    requires Jobs.SourceInOrder(repository.job.range, repository.job.models, repository.envs)
    ensures Jobs.Handled(repository.log) == repository.job.commitRefs && Jobs.DistinctShas(repository.job.commitRefs)
    ensures var range, models := repository.job.range, repository.job.models;
            && Jobs.Baseline(range, models, repository.envs).Some?
            && Jobs.Shas(Jobs.Handled(repository.log)) ==
                 {Jobs.Baseline(range, models, repository.envs).value.sha} + Jobs.PageShas(Jobs.Pages(range, models, repository.envs))
    ensures Timed(Jobs.AppliedSnapshots(repository.log))
    ensures var range, rows := repository.job.range, RowsIn(repository.candidates, model);
            var recovers := Recovers(Promoted(rows), Jobs.AppliedSnapshots(repository.log), model, range);
            && (LastIsSaved(repository.log) ==> Disjoint(rows))
            && (recovers <==> if LastIsSaved(repository.log) then !Forgets(repository.batches, model, range)
                              else PromotableUnfinished(rows, repository.batches, model, range))
  {
    AppliedComeInSequence(repository);
    Jobs.PromotionHandledAll(repository.job.range, repository.job.models, repository.envs);
    var range, batches := repository.job.range, repository.batches;
    hide Jobs.Pages, Jobs.Baseline, Jobs.Shas, Jobs.PageShas;
    hide Jobs.Run, Jobs.SourceInOrder, InSequence, Jobs.Valid, Recovers, Promoted, Disjoint, Forgets, TableRows, Flatten, AllOneOpen, PromotableUnfinished;
    if repository.finished {
      SavedBatchesRecoverIff(batches, model, range);
      FinishedIsPromoted(SavedInBatches(batches, model, range), range.to);
      FinishedTable(batches, model, range);
    } else {
      SkippedEndRecoversIff(batches, model, range);
    }
  }

  lemma FinishedTable(batches: seq<seq<Snapshot>>, model: string, range: Range)
    requires forall k :: 0 <= k < |batches| ==> Timed(batches[k])
    ensures TableRows(batches, model, range, true) == Finish(SavedInBatches(batches, model, range), range.to)
  {
  }

  /**
   * So where the source names no commit but the baseline at the range start or before it, nothing is ever
   * forgotten: a promoted job whose last ref was saved recovers every price.
   */
  lemma PromotionRecovers(repository: PricingHistoryRepository, model: string)
    requires repository.Valid() && repository.Ran() && model in repository.job.models
    requires repository.job.state in {Jobs.Promoting, Jobs.Completed} && repository.job.range.from < repository.job.range.to
    requires Jobs.SourceInOrder(repository.job.range, repository.job.models, repository.envs)
    requires Jobs.SourceStartsLater(repository.job.range, repository.job.models, repository.envs)
    ensures Timed(Jobs.AppliedSnapshots(repository.log))
    ensures var rows := RowsIn(repository.candidates, model);
            var recovers := Recovers(Promoted(rows), Jobs.AppliedSnapshots(repository.log), model, repository.job.range);
            recovers <==> (LastIsSaved(repository.log) || forall e :: !IsOpen(rows, e))
  {
    PromotionRecoversIff(repository, model);
    AppliedComeInSequence(repository);
    Jobs.HandledStartsLater(repository.job.range, repository.job.models, repository.envs);
    hide Jobs.Run, Jobs.SourceInOrder, Jobs.SourceStartsLater, InSequence, Jobs.Valid, Recovers, Promoted, Disjoint, Forgets, AllOneOpen, FollowsBatches;
    hide Jobs.Handled, Jobs.AppliedSnapshots, Flatten;
    Jobs.AppliedStartLater(repository.log, repository.job.range);
    LaterChangesForgetNothing(repository.batches, model, repository.job.range);
  }
}

/**
 * The durable recovery job: which refs it lists and in which order it applies them, its retries and its
 * skips (apps/web/lib/pricing-history.ts). One worker runs its steps.
 */
module PricingRecoveryJob {
  import opened Prelude
  import opened PricingModel
  import opened PricingCandidates

  const MAX_SNAPSHOTS_PER_STEP: nat := 4
  const SKIP_AFTER_FAILURES: nat := 2
  const SOURCE_RETRY_BASE_MS: int := 60_000
  const SOURCE_RETRY_MAX_MS: int := 3_600_000
  const PAGE_SIZE: nat := 100

  datatype JobState = Pending | Listing | Fetching | Promoting | Completed | WaitingSource

  datatype Job = Job(
    state: JobState, range: Range, models: seq<string>, commitRefs: seq<Ref>, listPage: nat, nextCommitIndex: nat,
    nextAttemptAt: Option<int>, rateLimitResetAt: Option<int>, consecutiveFailures: nat, lastError: Option<string>)

  function Created(range: Range, models: seq<string>): Job {
    Job(Pending, range, models, [], 0, 0, None, None, 0, None)
  }

  /** How the source answers; a rate-limit answer carries the time it names. */
  datatype Reply<T> = Replied(value: T) | Unavailable(error: string, resetAt: Option<int>)
  datatype Fetched = Pricing(pricing: map<string, Resolved>) | Invalid | NotFetched(error: string, resetAt: Option<int>)

  /** What the world holds during one step. */
  datatype Env = Env(now: int, baseline: Reply<seq<Ref>>, page: Reply<seq<Ref>>, fetch: string -> Fetched)

  // ------------------------------------------------------ the order of the refs

  function Shas(refs: seq<Ref>): set<string> { set r | r in refs :: r.sha }

  /** Keeps the first ref of every sha. */
  function UniqueBySha(refs: seq<Ref>): seq<Ref> {
    if refs == [] then []
    else
      var earlier := UniqueBySha(refs[..|refs| - 1]);
      var last := refs[|refs| - 1];
      if last.sha in Shas(refs[..|refs| - 1]) then earlier else earlier + [last]
  }

  function AppendUnique(current: seq<Ref>, next: seq<Ref>): seq<Ref> { UniqueBySha(current + next) }

  function Reverse(refs: seq<Ref>): seq<Ref> {
    if refs == [] then [] else [refs[|refs| - 1]] + Reverse(refs[..|refs| - 1])
  }

  function Without(refs: seq<Ref>, sha: string): seq<Ref> {
    if refs == [] then []
    else Without(refs[..|refs| - 1], sha) + if refs[|refs| - 1].sha != sha then [refs[|refs| - 1]] else []
  }

  /** The newest-first changes after the baseline, turned round. */
  function ExecutionOrder(refs: seq<Ref>): seq<Ref> {
    if refs == [] then [] else AppendUnique([refs[0]], Without(Reverse(refs[1..]), refs[0].sha))
  }

  ghost predicate DistinctShas(refs: seq<Ref>) {
    forall i, j :: 0 <= i < j < |refs| ==> refs[i].sha != refs[j].sha
  }

  lemma ShasConcat(a: seq<Ref>, b: seq<Ref>)
    ensures Shas(a + b) == Shas(a) + Shas(b)
  {
    forall sha | sha in Shas(a) + Shas(b) ensures sha in Shas(a + b) {
      if r :| r in a && r.sha == sha {
        assert r in a + b;
      } else {
        var r :| r in b && r.sha == sha;
        assert r in a + b;
      }
    }
  }

  lemma UniqueLast(earlier: seq<Ref>, last: Ref)
    ensures UniqueBySha(earlier + [last]) == if last.sha in Shas(earlier) then UniqueBySha(earlier) else UniqueBySha(earlier) + [last]
    ensures earlier == [] ==> UniqueBySha(earlier) == []
  {
    assert (earlier + [last])[..|earlier|] == earlier;
  }

  lemma AppendDistinct(refs: seq<Ref>, last: Ref)
    requires DistinctShas(refs) && last.sha !in Shas(refs)
    ensures DistinctShas(refs + [last])
  {
    forall i | 0 <= i < |refs| ensures refs[i].sha != last.sha {
      assert refs[i].sha in Shas(refs);
    }
  }

  lemma {:induction false} UniqueKeepsShas(refs: seq<Ref>)
    ensures Shas(UniqueBySha(refs)) == Shas(refs)
    ensures refs != [] ==> UniqueBySha(refs) != [] && UniqueBySha(refs)[0] == refs[0]
    decreases |refs|
  {
    if refs != [] {
      var earlier, last := refs[..|refs| - 1], refs[|refs| - 1];
      assert Shas([]) == {} && Shas([last]) == {last.sha};
      UniqueLast(earlier, last);
      hide Shas, UniqueBySha;
      UniqueKeepsShas(earlier);
      assert refs == earlier + [last];
      ShasConcat(earlier, [last]);
      ShasConcat(UniqueBySha(earlier), [last]);
    }
  }

  /** No sha is left twice, none is lost, and the first ref stays first. */
  lemma {:induction false} UniqueIsDistinct(refs: seq<Ref>)
    ensures DistinctShas(UniqueBySha(refs))
    ensures Shas(UniqueBySha(refs)) == Shas(refs)
    ensures refs != [] ==> UniqueBySha(refs) != [] && UniqueBySha(refs)[0] == refs[0]
    decreases |refs|
  {
    UniqueKeepsShas(refs);
    if refs != [] {
      var earlier, last := refs[..|refs| - 1], refs[|refs| - 1];
      UniqueLast(earlier, last);
      UniqueIsDistinct(earlier);
      hide DistinctShas, Shas, UniqueBySha;
      assert refs == earlier + [last];
      if last.sha !in Shas(earlier) {
        AppendDistinct(UniqueBySha(earlier), last);
      }
    }
  }

  lemma {:induction false} DistinctIsKept(refs: seq<Ref>)
    requires DistinctShas(refs)
    ensures UniqueBySha(refs) == refs
    decreases |refs|
  {
    if refs != [] {
      var last := |refs| - 1;
      DistinctIsKept(refs[..last]);
      assert refs == refs[..last] + [refs[last]];
    }
  }

  lemma {:induction false} ReverseAt(refs: seq<Ref>)
    ensures |Reverse(refs)| == |refs|
    ensures forall k :: 0 <= k < |refs| ==> Reverse(refs)[k] == refs[|refs| - 1 - k]
    decreases |refs|
  {
    if refs != [] {
      ReverseAt(refs[..|refs| - 1]);
    }
  }

  lemma {:induction false} WithoutNothing(refs: seq<Ref>, sha: string)
    requires forall k :: 0 <= k < |refs| ==> refs[k].sha != sha
    ensures Without(refs, sha) == refs
    decreases |refs|
  {
    if refs != [] {
      WithoutNothing(refs[..|refs| - 1], sha);
    }
  }

  /** A listing without repeated shas is executed baseline first, then the changes from the last to the first. */
  lemma ExecutionOrderIsReversal(refs: seq<Ref>)
    requires DistinctShas(refs) && refs != []
    ensures ExecutionOrder(refs) == [refs[0]] + Reverse(refs[1..])
    ensures DistinctShas(ExecutionOrder(refs)) && |ExecutionOrder(refs)| == |refs|
    ensures forall k :: 0 < k < |refs| ==> ExecutionOrder(refs)[k] == refs[|refs| - k]
  {
    hide UniqueBySha, Reverse, Without;
    var changes := Reverse(refs[1..]);
    ReverseAt(refs[1..]);
    WithoutNothing(changes, refs[0].sha);
    DistinctIsKept([refs[0]] + changes);
  }

  // --------------------------------------------------------------------- steps

  datatype Event = Listed | Applied(snapshot: Snapshot) | Skipped(ref: Ref) | Failed

  function ResumeState(job: Job): JobState {
    if job.listPage > 0 then Listing else if job.commitRefs != [] then Fetching else Pending
  }

  function Power2(n: nat): nat { if n == 0 then 1 else 2 * Power2(n - 1) }

  function RetryAt(job: Job, now: int): int {
    now + Min(SOURCE_RETRY_MAX_MS, SOURCE_RETRY_BASE_MS * Power2(if job.consecutiveFailures < 10 then job.consecutiveFailures else 10))
  }

  function Wait(job: Job, now: int, error: string, resetAt: Option<int>): Job {
    job.(state := WaitingSource,
         nextAttemptAt := Some(if resetAt.Some? then resetAt.value else RetryAt(job, now)),
         rateLimitResetAt := resetAt, consecutiveFailures := job.consecutiveFailures + 1,
         lastError := Some(if |error| > 200 then error[..200] else error))
  }

  function Resumed(job: Job): Job {
    job.(state := ResumeState(job), nextAttemptAt := None, rateLimitResetAt := None)
  }

  function Progressed(job: Job): Job {
    job.(nextAttemptAt := None, rateLimitResetAt := None, consecutiveFailures := 0, lastError := None)
  }

  function BaselineSaved(job: Job, refs: seq<Ref>): Job {
    Progressed(job).(state := Listing, commitRefs := refs, listPage := 1)
  }

  function PageSaved(job: Job, refs: seq<Ref>, nextPage: Option<nat>): Job {
    Progressed(job).(state := if nextPage.None? then Fetching else Listing, commitRefs := refs,
                     listPage := if nextPage.None? then 0 else nextPage.value, nextCommitIndex := 0)
  }

  function Advanced(job: Job, count: nat): Job {
    Progressed(job).(state := if job.nextCommitIndex + count == |job.commitRefs| then Promoting else Fetching,
                     nextCommitIndex := job.nextCommitIndex + count)
  }

  function SkippedOne(job: Job): Job { Advanced(job, 1).(lastError := Some("invalid pricing snapshot skipped")) }

  function Done(job: Job): Job {
    job.(state := Completed, nextAttemptAt := None, rateLimitResetAt := None, lastError := None)
  }

  /** The refs of a step's batch. */
  function NextRefs(job: Job): seq<Ref> {
    var to := job.nextCommitIndex + MAX_SNAPSHOTS_PER_STEP;
    if job.nextCommitIndex >= |job.commitRefs| then []
    else if to <= |job.commitRefs| then job.commitRefs[job.nextCommitIndex..to]
    else job.commitRefs[job.nextCommitIndex..]
  }

  /** The leading refs that can be fetched, as snapshots. */
  function FetchPrefix(refs: seq<Ref>, fetch: string -> Fetched): seq<Snapshot> {
    if refs == [] then []
    else
      match fetch(refs[0].sha)
      case Pricing(pricing) => [Snapshot(refs[0], pricing)] + FetchPrefix(refs[1..], fetch)
      case _ => []
  }

  predicate AllTimed(snapshots: seq<Snapshot>) {
    forall k :: 0 <= k < |snapshots| ==> snapshots[k].ref.committedAt.Some?
  }

  function AppliedEvents(snapshots: seq<Snapshot>): seq<Event> {
    seq(|snapshots|, i requires 0 <= i < |snapshots| => Applied(snapshots[i]))
  }

  const SOURCE_ERROR: string := "pricing history source unavailable"

  /** Saving fails, and leaves everything as it was, when a commit time cannot be read. */
  function SaveOrWait(job: Job, snapshots: seq<Snapshot>, now: int): (Job, seq<Event>) {
    if AllTimed(snapshots) then (Advanced(job, |snapshots|), AppliedEvents(snapshots))
    else (Wait(job, now, SOURCE_ERROR, None), [Failed])
  }

  /** Saves what came before the bad ref, then skips that one. */
  function SaveAndSkip(job: Job, snapshots: seq<Snapshot>, ref: Ref, now: int): (Job, seq<Event>) {
    if snapshots == [] then (SkippedOne(job), [Skipped(ref)])
    else
      var (saved, events) := SaveOrWait(job, snapshots, now);
      if AllTimed(snapshots) then (SkippedOne(saved), events + [Skipped(ref)]) else (saved, events)
  }

  function StepFetching(job: Job, env: Env): (Job, seq<Event>) {
    var refs := NextRefs(job);
    if refs == [] then (Wait(job, env.now, SOURCE_ERROR, None), [Failed])
    else
      var snapshots := FetchPrefix(refs, env.fetch);
      if |snapshots| >= |refs| then SaveOrWait(job, snapshots, env.now)
      else
        match env.fetch(refs[|snapshots|].sha)
        case NotFetched(error, resetAt) => (Wait(job, env.now, error, resetAt), [Failed])
        case _ =>
          if job.consecutiveFailures < SKIP_AFTER_FAILURES then (Wait(job, env.now, SOURCE_ERROR, None), [Failed])
          else SaveAndSkip(job, snapshots, refs[|snapshots|], env.now)
  }

  function StepPending(job: Job, env: Env): (Job, seq<Event>) {
    match env.baseline
    case Unavailable(error, resetAt) => (Wait(job, env.now, error, resetAt), [Failed])
    case Replied(refs) =>
      if refs == [] then (Wait(job, env.now, "pricing history baseline unavailable", None), [Failed])
      else (BaselineSaved(job, refs[..1]), [Listed])
  }

  function StepListing(job: Job, env: Env): (Job, seq<Event>) {
    match env.page
    case Unavailable(error, resetAt) => (Wait(job, env.now, error, resetAt), [Failed])
    case Replied(page) =>
      var refs := AppendUnique(job.commitRefs, page);
      if |page| < PAGE_SIZE then (PageSaved(job, ExecutionOrder(refs), None), [Listed])
      else (PageSaved(job, refs, Some(job.listPage + 1)), [Listed])
  }

  /** One step of the job and what it did. */
  function Step(job: Job, env: Env): (Job, seq<Event>) {
    match job.state
    case WaitingSource =>
      if job.nextAttemptAt.Some? && job.nextAttemptAt.value > env.now then (job, []) else (Resumed(job), [])
    case Pending => StepPending(job, env)
    case Listing => StepListing(job, env)
    case Fetching => StepFetching(job, env)
    case Promoting => (Done(job), [])
    case Completed => (job, [])
  }

  ghost function Run(job: Job, envs: seq<Env>): (Job, seq<Event>) {
    if envs == [] then (job, [])
    else
      var (before, log) := Run(job, envs[..|envs| - 1]);
      var (after, events) := Step(before, envs[|envs| - 1]);
      (after, log + events)
  }

  // ------------------------------------------------------------- every reachable job

  /** The failed steps since the last step that moved the job on. */
  function FailuresSince(log: seq<Event>): nat {
    if log == [] || log[|log| - 1] != Failed then 0 else 1 + FailuresSince(log[..|log| - 1])
  }

  /** The refs dealt with so far, in the order they were. */
  function Handled(log: seq<Event>): seq<Ref> {
    if log == [] then []
    else
      var last := log[|log| - 1];
      Handled(log[..|log| - 1])
      + match last case Applied(snapshot) => [snapshot.ref] case Skipped(ref) => [ref] case _ => []
  }

  /** What the fields of a job in state `state` look like; waiting keeps the fields of the state it left. */
  ghost predicate FieldsFit(job: Job, state: JobState) {
    match state
    case Pending => job.listPage == 0 && job.commitRefs == [] && job.nextCommitIndex == 0
    case Listing => job.listPage > 0 && job.commitRefs != [] && job.nextCommitIndex == 0
    case Fetching => job.listPage == 0 && job.commitRefs != [] && job.nextCommitIndex < |job.commitRefs|
    case _ => job.listPage == 0 && job.commitRefs != [] && job.nextCommitIndex == |job.commitRefs|
  }

  ghost predicate Valid(job: Job, log: seq<Event>) {
    && DistinctShas(job.commitRefs)
    && FieldsFit(job, if job.state == WaitingSource then ResumeState(job) else job.state)
    && Handled(log) == job.commitRefs[..if job.nextCommitIndex <= |job.commitRefs| then job.nextCommitIndex else 0]
    && job.consecutiveFailures == FailuresSince(log)
    && (job.state == WaitingSource ==> job.consecutiveFailures > 0)
  }

  lemma CreatedIsValid(range: Range, models: seq<string>)
    ensures Valid(Created(range, models), [])
  {
  }

  /** Waiting and resuming brings a valid job back to the state it waited in, all else but the times unchanged. */
  lemma ResumeReturnsWhereWaitLeft(job: Job, now: int, error: string, resetAt: Option<int>)
    requires FieldsFit(job, job.state) && job.state in {Pending, Listing, Fetching}
    ensures Resumed(Wait(job, now, error, resetAt)) ==
      job.(nextAttemptAt := None, rateLimitResetAt := None, consecutiveFailures := job.consecutiveFailures + 1,
           lastError := Wait(job, now, error, resetAt).lastError)
  {
  }

  lemma {:induction false} Power2Grows(a: nat, b: nat)
    requires a <= b
    ensures 1 <= Power2(a) <= Power2(b)
    decreases b
  {
    if b > 0 {
      Power2Grows(if a < b then a else a - 1, b - 1);
    }
  }

  /** A retry the source does not time comes after one minute, and after twice as long for every failure, up to an hour. */
  lemma RetryIsBounded(job: Job, more: Job, now: int)
    requires job.consecutiveFailures <= more.consecutiveFailures
    ensures now + 60_000 <= RetryAt(job, now) <= RetryAt(more, now) <= now + 3_600_000
    ensures RetryAt(job, now) == now + match job.consecutiveFailures
              case 0 => 60_000 case 1 => 120_000 case 2 => 240_000 case 3 => 480_000 case 4 => 960_000 case 5 => 1_920_000
              case _ => 3_600_000
  {
    var a, b := job.consecutiveFailures, more.consecutiveFailures;
    Power2Grows(if a < 10 then a else 10, if b < 10 then b else 10);
    if a >= 6 { Power2Grows(6, if a < 10 then a else 10); }
    assert Power2(1) == 2 && Power2(2) == 4 && Power2(3) == 8 && Power2(4) == 16 && Power2(5) == 32 && Power2(6) == 64;
  }

  // --------------------------------------------------- what a step does to a valid job

  lemma {:induction false} FetchPrefixIsLongest(refs: seq<Ref>, fetch: string -> Fetched)
    ensures var prefix := FetchPrefix(refs, fetch);
            && |prefix| <= |refs|
            && (forall k :: 0 <= k < |prefix| ==> prefix[k].ref == refs[k] && fetch(refs[k].sha) == Pricing(prefix[k].pricing))
            && (|prefix| < |refs| ==> !fetch(refs[|prefix|].sha).Pricing?)
    decreases |refs|
  {
    if refs != [] {
      FetchPrefixIsLongest(refs[1..], fetch);
    }
  }

  lemma {:induction false} HandledConcat(a: seq<Event>, b: seq<Event>)
    ensures Handled(a + b) == Handled(a) + Handled(b)
    decreases |b|
  {
    if b == [] {
      assert a + b == a;
    } else {
      assert (a + b)[..|a + b| - 1] == a + b[..|b| - 1];
      HandledConcat(a, b[..|b| - 1]);
    }
  }

  lemma {:induction false} HandledApplied(snapshots: seq<Snapshot>, refs: seq<Ref>)
    requires |snapshots| == |refs| && forall k :: 0 <= k < |refs| ==> snapshots[k].ref == refs[k]
    ensures Handled(AppliedEvents(snapshots)) == refs
    decreases |refs|
  {
    var events := AppliedEvents(snapshots);
    if refs != [] {
      var last := |refs| - 1;
      assert events[..last] == AppliedEvents(snapshots[..last]);
      HandledApplied(snapshots[..last], refs[..last]);
    }
  }

  lemma NextRefsAt(job: Job)
    requires job.nextCommitIndex < |job.commitRefs|
    ensures 0 < |NextRefs(job)| <= MAX_SNAPSHOTS_PER_STEP
    ensures job.nextCommitIndex + |NextRefs(job)| <= |job.commitRefs|
    ensures NextRefs(job) == job.commitRefs[job.nextCommitIndex..job.nextCommitIndex + |NextRefs(job)|]
  {
  }

  /** A wait is one more failure and nothing else. */
  lemma WaitKeepsValid(job: Job, log: seq<Event>, now: int, error: string, resetAt: Option<int>)
    requires Valid(job, log) && job.state in {Pending, Listing, Fetching}
    ensures Valid(Wait(job, now, error, resetAt), log + [Failed])
    ensures ResumeState(Wait(job, now, error, resetAt)) == job.state
  {
    assert (log + [Failed])[..|log|] == log;
  }

  lemma AppliedIsProgress(log: seq<Event>, snapshots: seq<Snapshot>)
    requires snapshots != []
    ensures FailuresSince(log + AppliedEvents(snapshots)) == 0
  {
    var all := log + AppliedEvents(snapshots);
    assert all[|all| - 1] == Applied(snapshots[|snapshots| - 1]);
  }

  lemma AdvanceKeepsValid(job: Job, log: seq<Event>, snapshots: seq<Snapshot>)
    requires Valid(job, log) && job.state == Fetching && 0 < |snapshots|
    requires job.nextCommitIndex + |snapshots| <= |job.commitRefs|
    requires forall k :: 0 <= k < |snapshots| ==> snapshots[k].ref == job.commitRefs[job.nextCommitIndex + k]
    ensures Valid(Advanced(job, |snapshots|), log + AppliedEvents(snapshots))
  {
    var from, to := job.nextCommitIndex, job.nextCommitIndex + |snapshots|;
    var events := AppliedEvents(snapshots);
    hide Handled, FailuresSince, AppliedEvents, DistinctShas;
    AppliedIsProgress(log, snapshots);
    assert job.commitRefs[..from] + job.commitRefs[from..to] == job.commitRefs[..to];
    HandledConcat(log, events);
    HandledApplied(snapshots, job.commitRefs[from..to]);
  }

  lemma SkipKeepsValid(job: Job, log: seq<Event>)
    requires Valid(job, log) && job.state == Fetching
    ensures Valid(SkippedOne(job), log + [Skipped(job.commitRefs[job.nextCommitIndex])])
  {
    var i := job.nextCommitIndex;
    var event := Skipped(job.commitRefs[i]);
    assert (log + [event])[..|log|] == log;
    assert job.commitRefs[..i] + [job.commitRefs[i]] == job.commitRefs[..i + 1];
  }

  lemma ListedKeepsValid(job: Job, log: seq<Event>, next: Job)
    requires Valid(job, log) && job.state in {Pending, Listing}
    requires DistinctShas(next.commitRefs) && next.state in {Listing, Fetching} && FieldsFit(next, next.state)
    requires next.consecutiveFailures == 0 && next.nextCommitIndex == 0
    ensures Valid(next, log + [Listed])
  {
    assert (log + [Listed])[..|log|] == log;
  }

  lemma SaveOrWaitKeepsValid(job: Job, log: seq<Event>, snapshots: seq<Snapshot>, now: int)
    requires Valid(job, log) && job.state == Fetching && 0 < |snapshots|
    requires job.nextCommitIndex + |snapshots| <= |job.commitRefs|
    requires forall k :: 0 <= k < |snapshots| ==> snapshots[k].ref == job.commitRefs[job.nextCommitIndex + k]
    ensures var (next, events) := SaveOrWait(job, snapshots, now);
            Valid(next, log + events)
  {
    hide Valid, Advanced, Wait;
    if AllTimed(snapshots) {
      AdvanceKeepsValid(job, log, snapshots);
    } else {
      WaitKeepsValid(job, log, now, SOURCE_ERROR, None);
    }
  }

  lemma SaveAndSkipKeepsValid(job: Job, log: seq<Event>, snapshots: seq<Snapshot>, now: int)
    requires Valid(job, log) && job.state == Fetching
    requires job.nextCommitIndex + |snapshots| < |job.commitRefs|
    requires forall k :: 0 <= k < |snapshots| ==> snapshots[k].ref == job.commitRefs[job.nextCommitIndex + k]
    ensures var (next, events) := SaveAndSkip(job, snapshots, job.commitRefs[job.nextCommitIndex + |snapshots|], now);
            Valid(next, log + events)
  {
    hide Valid, SkippedOne, Wait;
    if snapshots == [] {
      SkipKeepsValid(job, log);
    } else {
      var (saved, events) := SaveOrWait(job, snapshots, now);
      SaveOrWaitKeepsValid(job, log, snapshots, now);
      if AllTimed(snapshots) {
        SkipKeepsValid(saved, log + events);
        var skip := [Skipped(job.commitRefs[job.nextCommitIndex + |snapshots|])];
        assert (log + events) + skip == log + (events + skip);
      }
    }
  }

  /** What a step can fetch, against the refs from the cursor on. */
  lemma FetchedAtCursor(job: Job, fetch: string -> Fetched)
    requires job.nextCommitIndex < |job.commitRefs|
    ensures var refs, snapshots, i := NextRefs(job), FetchPrefix(NextRefs(job), fetch), job.nextCommitIndex;
            && 0 < |refs| && |snapshots| <= |refs| <= |job.commitRefs| - i
            && (forall k :: 0 <= k < |snapshots| ==>
                  snapshots[k].ref == job.commitRefs[i + k] && fetch(snapshots[k].ref.sha) == Pricing(snapshots[k].pricing))
            && (|snapshots| < |refs| ==> refs[|snapshots|] == job.commitRefs[i + |snapshots|] && !fetch(refs[|snapshots|].sha).Pricing?)
  {
    NextRefsAt(job);
    FetchPrefixIsLongest(NextRefs(job), fetch);
    hide FetchPrefix;
  }

  lemma StepFetchingKeepsValid(job: Job, log: seq<Event>, env: Env)
    requires Valid(job, log) && job.state == Fetching
    ensures var (next, events) := StepFetching(job, env);
            Valid(next, log + events)
  {
    var refs, snapshots := NextRefs(job), FetchPrefix(NextRefs(job), env.fetch);
    FetchedAtCursor(job, env.fetch);
    hide Valid, SaveAndSkip, SaveOrWait, Wait, FetchPrefix, NextRefs;
    if |snapshots| >= |refs| {
      SaveOrWaitKeepsValid(job, log, snapshots, env.now);
    } else {
      WaitKeepsValid(job, log, env.now, SOURCE_ERROR, None);
      var reply := env.fetch(refs[|snapshots|].sha);
      if reply.NotFetched? { WaitKeepsValid(job, log, env.now, reply.error, reply.resetAt); }
      SaveAndSkipKeepsValid(job, log, snapshots, env.now);
    }
  }

  lemma StepPendingKeepsValid(job: Job, log: seq<Event>, env: Env)
    requires Valid(job, log) && job.state == Pending
    ensures var (next, events) := StepPending(job, env);
            Valid(next, log + events)
  {
    match env.baseline
    case Unavailable(error, resetAt) => WaitKeepsValid(job, log, env.now, error, resetAt);
    case Replied(refs) =>
      if refs == [] {
        WaitKeepsValid(job, log, env.now, "pricing history baseline unavailable", None);
      } else {
        ListedKeepsValid(job, log, BaselineSaved(job, refs[..1]));
      }
  }

  lemma StepListingKeepsValid(job: Job, log: seq<Event>, env: Env)
    requires Valid(job, log) && job.state == Listing
    ensures var (next, events) := StepListing(job, env);
            Valid(next, log + events)
  {
    match env.page
    case Unavailable(error, resetAt) => WaitKeepsValid(job, log, env.now, error, resetAt);
    case Replied(page) =>
      var refs := AppendUnique(job.commitRefs, page);
      UniqueIsDistinct(job.commitRefs + page);
      ExecutionOrderIsReversal(refs);
      hide ExecutionOrder, AppendUnique, Handled, FailuresSince;
      ListedKeepsValid(job, log, StepListing(job, env).0);
  }

  lemma StepKeepsValid(job: Job, log: seq<Event>, env: Env)
    requires Valid(job, log)
    ensures var (next, events) := Step(job, env);
            Valid(next, log + events)
  {
    assert log + [] == log;
    hide StepPending, StepListing, StepFetching, Handled, FailuresSince;
    match job.state
    case Pending => StepPendingKeepsValid(job, log, env);
    case Listing => StepListingKeepsValid(job, log, env);
    case Fetching => StepFetchingKeepsValid(job, log, env);
    case _ =>
  }

  /**
   * In every run: what has been applied or skipped is, in order, exactly the refs before the cursor, no sha
   * twice; the failure count is the number of failures since the last progress.
   */
  lemma {:induction false} RunIsValid(range: Range, models: seq<string>, envs: seq<Env>)
    ensures var (job, log) := Run(Created(range, models), envs);
            Valid(job, log)
    decreases |envs|
  {
    if envs == [] {
      CreatedIsValid(range, models);
    } else {
      RunIsValid(range, models, envs[..|envs| - 1]);
      var (before, log) := Run(Created(range, models), envs[..|envs| - 1]);
      StepKeepsValid(before, log, envs[|envs| - 1]);
    }
  }

  // ------------------------------------------------------------ main results

  lemma NoEvent(snapshots: seq<Snapshot>, event: Event)
    ensures event in AppliedEvents(snapshots) ==> event.Applied? && event.snapshot in snapshots
  {
  }

  /** A ref is skipped only when two steps failed since the last progress and its snapshot is invalid now. */
  lemma SkipNeedsTwoFailures(job: Job, log: seq<Event>, env: Env, ref: Ref)
    requires Valid(job, log) && Skipped(ref) in Step(job, env).1
    ensures job.state == Fetching && FailuresSince(log) >= 2 && env.fetch(ref.sha).Invalid?
  {
    hide Handled, DistinctShas, RetryAt, AppendUnique, ExecutionOrder;
    if job.state == Fetching {
      FetchedAtCursor(job, env.fetch);
      hide FetchPrefix, NextRefs, Advanced, Wait, SkippedOne, AppliedEvents, AllTimed;
      NoEvent(FetchPrefix(NextRefs(job), env.fetch), Skipped(ref));
    }
  }

  /** What is applied is what the source returned for that sha in the same step, with a readable time. */
  lemma AppliedWasFetched(job: Job, log: seq<Event>, env: Env, snapshot: Snapshot)
    requires Valid(job, log) && Applied(snapshot) in Step(job, env).1
    ensures env.fetch(snapshot.ref.sha) == Pricing(snapshot.pricing) && snapshot.ref.committedAt.Some?
  {
    hide Handled, DistinctShas, RetryAt, AppendUnique, ExecutionOrder;
    if job.state == Fetching {
      FetchedAtCursor(job, env.fetch);
      hide FetchPrefix, NextRefs, Advanced, Wait, SkippedOne, AppliedEvents;
      NoEvent(FetchPrefix(NextRefs(job), env.fetch), Applied(snapshot));
    }
  }

  lemma FailedFetchWaits(job: Job, env: Env) returns (error: string, resetAt: Option<int>)
    requires job.nextCommitIndex < |job.commitRefs| && Failed in StepFetching(job, env).1
    ensures StepFetching(job, env).0 == Wait(job, env.now, error, resetAt)
  {
    FetchedAtCursor(job, env.fetch);
    var refs, snapshots := NextRefs(job), FetchPrefix(NextRefs(job), env.fetch);
    hide FetchPrefix, NextRefs, Advanced, SkippedOne, AppliedEvents, AllTimed, Wait;
    NoEvent(snapshots, Failed);
    error, resetAt := SOURCE_ERROR, None;
    if |snapshots| < |refs| && env.fetch(refs[|snapshots|].sha).NotFetched? {
      error, resetAt := env.fetch(refs[|snapshots|].sha).error, env.fetch(refs[|snapshots|].sha).resetAt;
    }
  }

  /** A step that fails is a wait in one of the three working states. */
  lemma FailedIsWait(job: Job, log: seq<Event>, env: Env) returns (error: string, resetAt: Option<int>)
    requires Valid(job, log) && Failed in Step(job, env).1
    ensures job.state in {Pending, Listing, Fetching} && Step(job, env).0 == Wait(job, env.now, error, resetAt)
  {
    hide Handled, FailuresSince, DistinctShas, AppendUnique, ExecutionOrder, Wait, StepFetching;
    error, resetAt := "pricing history baseline unavailable", None;
    if job.state == Fetching { error, resetAt := FailedFetchWaits(job, env); }
    else if job.state == Listing && env.page.Unavailable? { error, resetAt := env.page.error, env.page.resetAt; }
    else if job.state == Pending && env.baseline.Unavailable? { error, resetAt := env.baseline.error, env.baseline.resetAt; }
  }

  /**
   * A step that fails leaves the job waiting: until the time a rate limit names, or between a minute and an hour
   * from now. Until then steps change nothing; from then on the job takes up where it was.
   */
  lemma FailedStepWaits(job: Job, log: seq<Event>, env: Env, later: Env)
    requires Valid(job, log) && Failed in Step(job, env).1
    ensures var waiting := Step(job, env).0;
            && waiting.state == WaitingSource && waiting.nextAttemptAt.Some?
            && (waiting.rateLimitResetAt.Some? ==> waiting.nextAttemptAt == waiting.rateLimitResetAt)
            && (waiting.rateLimitResetAt.None? ==>
                  env.now + 60_000 <= waiting.nextAttemptAt.value <= env.now + 3_600_000)
            && Step(waiting, later).0.state == (if later.now < waiting.nextAttemptAt.value then WaitingSource else job.state)
            && Step(waiting, later).0.commitRefs == job.commitRefs && Step(waiting, later).0.nextCommitIndex == job.nextCommitIndex
  {
    var error, resetAt := FailedIsWait(job, log, env);
    RetryIsBounded(job, job, env.now);
    WaitKeepsValid(job, log, env.now, error, resetAt);
    hide Valid, RetryAt, StepFetching, StepListing, StepPending;
  }

  /** The phase of a job; waiting belongs to the phase it resumes. */
  function Phase(job: Job): JobState { if job.state == WaitingSource then ResumeState(job) else job.state }

  /** Once the refs are listed they stay, and the cursor never moves back. */
  lemma CursorOnlyGrows(job: Job, log: seq<Event>, env: Env)
    requires Valid(job, log) && Phase(job) in {Fetching, Promoting, Completed}
    ensures var next := Step(job, env).0;
            && Phase(next) in {Fetching, Promoting, Completed} && next.commitRefs == job.commitRefs
            && job.nextCommitIndex <= next.nextCommitIndex <= |job.commitRefs|
  {
    hide StepListing, StepPending, FetchPrefix, NextRefs, AppliedEvents, Handled, FailuresSince, DistinctShas, RetryAt;
    if job.state == Fetching { FetchedAtCursor(job, env.fetch); }
  }

  // ----------------------------------------------- what the source names, and what is listed

  /** The pages the source replied with while the job was listing, in order. */
  ghost function Pages(range: Range, models: seq<string>, envs: seq<Env>): seq<seq<Ref>>
    decreases |envs|
  {
    if envs == [] then []
    else
      var job, env := Run(Created(range, models), envs[..|envs| - 1]).0, envs[|envs| - 1];
      Pages(range, models, envs[..|envs| - 1]) + if job.state == Listing && env.page.Replied? then [env.page.value] else []
  }

  /** The baseline the source named while the job was pending. */
  ghost function Baseline(range: Range, models: seq<string>, envs: seq<Env>): Option<Ref>
    decreases |envs|
  {
    if envs == [] then None
    else
      var job, env := Run(Created(range, models), envs[..|envs| - 1]).0, envs[|envs| - 1];
      if job.state == Pending && env.baseline.Replied? && env.baseline.value != [] then Some(env.baseline.value[0])
      else Baseline(range, models, envs[..|envs| - 1])
  }

  function PageShas(pages: seq<seq<Ref>>): set<string> {
    if pages == [] then {} else PageShas(pages[..|pages| - 1]) + Shas(pages[|pages| - 1])
  }

  /** Every page is full. */
  ghost predicate Full(pages: seq<seq<Ref>>) { forall k :: 0 <= k < |pages| ==> |pages[k]| >= 100 }

  /** The list holds the baseline first, and besides it just what the pages name. */
  ghost predicate Names(refs: seq<Ref>, baseline: Option<Ref>, pages: seq<seq<Ref>>) {
    && baseline.Some? && refs != [] && refs[0] == baseline.value
    && Shas(refs) == {baseline.value.sha} + PageShas(pages)
    && forall r | r in refs :: r == baseline.value || exists k :: 0 <= k < |pages| && r in pages[k]
  }

  /** A listing asks for one page after the other until one is not full. */
  ghost predicate Follows(job: Job, baseline: Option<Ref>, pages: seq<seq<Ref>>) {
    match Phase(job)
    case Pending => baseline.None? && pages == []
    case Listing => Names(job.commitRefs, baseline, pages) && Full(pages) && job.listPage == |pages| + 1
    case _ => Names(job.commitRefs, baseline, pages) && pages != [] && Full(pages[..|pages| - 1]) && |pages[|pages| - 1]| < 100
  }

  lemma {:induction false} UniqueIsSubset(refs: seq<Ref>, r: Ref)
    requires r in UniqueBySha(refs)
    ensures r in refs
    decreases |refs|
  {
    var last := |refs| - 1;
    if r in UniqueBySha(refs[..last]) { UniqueIsSubset(refs[..last], r); }
  }

  lemma OrderKeepsRefs(refs: seq<Ref>)
    requires refs != [] && DistinctShas(refs)
    ensures forall r :: r in ExecutionOrder(refs) <==> r in refs
    ensures ExecutionOrder(refs) != [] && ExecutionOrder(refs)[0] == refs[0]
  {
    ExecutionOrderIsReversal(refs);
    var order := ExecutionOrder(refs);
    hide ExecutionOrder, DistinctShas, Reverse;
    forall r | r in refs ensures r in order {
      var k :| 0 <= k < |refs| && refs[k] == r;
      var j := if k == 0 then 0 else |refs| - k;
      assert order[j] == r;
    }
    forall r | r in order ensures r in refs {
      var k :| 0 <= k < |order| && order[k] == r;
      var j := if k == 0 then 0 else |refs| - k;
      assert refs[j] == r;
    }
  }

  lemma SameRefsSameShas(a: seq<Ref>, b: seq<Ref>)
    requires forall r :: r in a <==> r in b
    ensures Shas(a) == Shas(b)
  {
  }

  lemma PageShasNext(pages: seq<seq<Ref>>, page: seq<Ref>)
    ensures PageShas(pages + [page]) == PageShas(pages) + Shas(page)
  {
    assert (pages + [page])[..|pages|] == pages;
  }

  /** A page adds just what it names, in the listing's order as well as in the order of work. */
  lemma PageIsNamed(refs: seq<Ref>, baseline: Option<Ref>, pages: seq<seq<Ref>>, page: seq<Ref>)
    requires Names(refs, baseline, pages)
    ensures Names(AppendUnique(refs, page), baseline, pages + [page])
    ensures Names(ExecutionOrder(AppendUnique(refs, page)), baseline, pages + [page])
  {
    var all := AppendUnique(refs, page);
    UniqueIsDistinct(refs + page);
    ShasConcat(refs, page);
    PageShasNext(pages, page);
    hide Shas, PageShas, DistinctShas;
    forall r | r in all ensures r == baseline.value || exists k :: 0 <= k < |pages + [page]| && r in (pages + [page])[k] {
      UniqueIsSubset(refs + page, r);
      if r in page {
        assert r in (pages + [page])[|pages|];
      } else if r != baseline.value {
        var k :| 0 <= k < |pages| && r in pages[k];
        assert r in (pages + [page])[k];
      }
    }
    OrderKeepsRefs(all);
    SameRefsSameShas(ExecutionOrder(all), all);
    hide AppendUnique, ExecutionOrder, UniqueBySha;
  }

  lemma BaselineIsNamed(ref: Ref)
    ensures Names([ref], Some(ref), [])
  {
    assert Shas([ref]) == {ref.sha};
  }

  lemma FullNext(pages: seq<seq<Ref>>, page: seq<Ref>)
    requires Full(pages)
    ensures |page| >= 100 ==> Full(pages + [page])
    ensures Full((pages + [page])[..|pages + [page]| - 1])
  {
    assert (pages + [page])[..|pages|] == pages;
  }

  lemma StepFollows(job: Job, log: seq<Event>, env: Env, baseline: Option<Ref>, pages: seq<seq<Ref>>)
    requires Valid(job, log) && Follows(job, baseline, pages)
    ensures Follows(Step(job, env).0,
      if job.state == Pending && env.baseline.Replied? && env.baseline.value != [] then Some(env.baseline.value[0]) else baseline,
      pages + if job.state == Listing && env.page.Replied? then [env.page.value] else [])
  {
    assert pages + [] == pages;
    if Phase(job) in {Fetching, Promoting, Completed} {
      CursorOnlyGrows(job, log, env);
      hide Names, Full;
    } else if job.state == Listing && env.page.Replied? {
      PageIsNamed(job.commitRefs, baseline, pages, env.page.value);
      FullNext(pages, env.page.value);
      hide Names, Full, AppendUnique, ExecutionOrder;
    } else if job.state == Pending && env.baseline.Replied? && env.baseline.value != [] {
      BaselineIsNamed(env.baseline.value[0]);
      assert env.baseline.value[..1] == [env.baseline.value[0]];
      hide Names;
    } else {
      hide Valid, Names, Full;
      ListingWaits(job, log, env, baseline, pages);
    }
  }

  /** A step without a reply, or one that only resumes a job, leaves the listing where it was. */
  lemma ListingWaits(job: Job, log: seq<Event>, env: Env, baseline: Option<Ref>, pages: seq<seq<Ref>>)
    requires Valid(job, log) && Phase(job) in {Pending, Listing} && Follows(job, baseline, pages)
    requires !(job.state == Listing && env.page.Replied?)
    requires !(job.state == Pending && env.baseline.Replied? && env.baseline.value != [])
    ensures Follows(Step(job, env).0, baseline, pages)
  {
    hide Names, Full, RetryAt, DistinctShas, Handled, FailuresSince, FetchPrefix;
  }

  lemma {:induction false} RunFollows(range: Range, models: seq<string>, envs: seq<Env>)
    ensures Follows(Run(Created(range, models), envs).0, Baseline(range, models, envs), Pages(range, models, envs))
    decreases |envs|
  {
    if envs != [] {
      var earlier, env := envs[..|envs| - 1], envs[|envs| - 1];
      hide Valid, Step, Follows;
      RunFollows(range, models, earlier);
      RunIsValid(range, models, earlier);
      var (before, log) := Run(Created(range, models), earlier);
      StepFollows(before, log, env, Baseline(range, models, earlier), Pages(range, models, earlier));
    }
  }

  /**
   * In every run: a job past its listing has asked for pages until the first with fewer than a hundred refs, and
   * works on exactly the shas of the baseline and of every page the source replied with, the baseline first.
   */
  lemma ListingIsComplete(range: Range, models: seq<string>, envs: seq<Env>)
    requires Phase(Run(Created(range, models), envs).0) in {Fetching, Promoting, Completed}
    ensures var (refs, pages) := (Run(Created(range, models), envs).0.commitRefs, Pages(range, models, envs));
            && Baseline(range, models, envs).Some? && refs != [] && refs[0] == Baseline(range, models, envs).value
            && Shas(refs) == {refs[0].sha} + PageShas(pages)
            && (forall r | r in refs :: r == refs[0] || exists k :: 0 <= k < |pages| && r in pages[k])
            && pages != [] && (forall k :: 0 <= k < |pages| - 1 ==> |pages[k]| >= 100) && |pages[|pages| - 1]| < 100
  {
    RunFollows(range, models, envs);
    hide Run, Pages, Baseline, Shas, PageShas;
    assert var pages := Pages(range, models, envs); forall k :: 0 <= k < |pages| - 1 ==> pages[k] == pages[..|pages| - 1][k];
  }

  /** While it lists, a job asks for the page after those it was replied. */
  lemma ListingAsksOn(range: Range, models: seq<string>, envs: seq<Env>)
    requires Phase(Run(Created(range, models), envs).0) == Listing
    ensures Run(Created(range, models), envs).0.listPage == |Pages(range, models, envs)| + 1
    ensures forall k :: 0 <= k < |Pages(range, models, envs)| ==> |Pages(range, models, envs)[k]| >= 100
  {
    RunFollows(range, models, envs);
    hide Run, Pages, Baseline;
  }

  /** At promotion every ref of the list has been dealt with once, and that is every ref the source named. */
  lemma PromotionHandledAll(range: Range, models: seq<string>, envs: seq<Env>)
    ensures var (job, log) := Run(Created(range, models), envs);
            job.state in {Promoting, Completed} ==>
              && Handled(log) == job.commitRefs && DistinctShas(job.commitRefs)
              && Baseline(range, models, envs).Some?
              && Shas(Handled(log)) == {Baseline(range, models, envs).value.sha} + PageShas(Pages(range, models, envs))
  {
    RunIsValid(range, models, envs);
    var (job, log) := Run(Created(range, models), envs);
    if job.state in {Promoting, Completed} {
      ListingIsComplete(range, models, envs);
      hide Run;
      assert job.commitRefs[..|job.commitRefs|] == job.commitRefs;
    }
  }

  // -------------------------------------------------------------- bounded work

  /** The source answers about every ref, validly or not, and a waiting job is due. */
  ghost predicate Answers(job: Job, env: Env) {
    && (forall r | r in job.commitRefs :: r.committedAt.Some? && !env.fetch(r.sha).NotFetched?)
    && (job.state == WaitingSource && job.nextAttemptAt.Some? ==> job.nextAttemptAt.value <= env.now)
  }

  /** An upper bound of the steps left: five for every ref, fewer for one that has failed before. */
  function StepsLeft(job: Job): int {
    5 * (|job.commitRefs| - job.nextCommitIndex)
    - if job.consecutiveFailures == 0 then 0
      else (if job.consecutiveFailures == 1 then 2 else 4) - if job.state == WaitingSource then 1 else 0
  }

  lemma StepsAreLeft(job: Job, log: seq<Event>)
    requires Valid(job, log) && Phase(job) == Fetching
    ensures StepsLeft(job) > 0
  {
  }

  lemma StepMakesProgress(job: Job, log: seq<Event>, env: Env)
    requires Valid(job, log) && Phase(job) == Fetching && Answers(job, env)
    ensures var next := Step(job, env).0;
            && (next.state == Promoting || (Phase(next) == Fetching && StepsLeft(next) < StepsLeft(job)))
  {
    hide StepListing, StepPending;
    if job.state == Fetching {
      FetchedAtCursor(job, env.fetch);
      var snapshots := FetchPrefix(NextRefs(job), env.fetch);
      forall k | 0 <= k < |snapshots| ensures snapshots[k].ref.committedAt.Some? {
        assert snapshots[k].ref == job.commitRefs[job.nextCommitIndex + k];
      }
      assert AllTimed(snapshots);
      hide Answers, Wait;
      hide FetchPrefix, NextRefs, AppliedEvents, Handled, FailuresSince, DistinctShas, AllTimed, RetryAt;
    }
  }

  ghost function After(job: Job, envs: seq<Env>): Job
    decreases |envs|
  {
    if envs == [] then job else After(Step(job, envs[0]).0, envs[1..])
  }

  ghost predicate AllAnswer(job: Job, envs: seq<Env>)
    decreases |envs|
  {
    envs == [] || (Answers(job, envs[0]) && AllAnswer(Step(job, envs[0]).0, envs[1..]))
  }

  /** A promoted job is done with the next step, its error and times gone, and nothing changes any more. */
  lemma {:induction false} PromotedIsDone(job: Job, envs: seq<Env>)
    requires job.state == Promoting || (job.state == Completed && job.nextAttemptAt.None? && job.rateLimitResetAt.None? && job.lastError.None?)
    ensures After(job, envs) ==
      if envs == [] then job
      else Job(Completed, job.range, job.models, job.commitRefs, job.listPage, job.nextCommitIndex, None, None, job.consecutiveFailures, None)
    ensures envs != [] ==> Step(job, envs[0]).1 == []
    decreases |envs|
  {
    if envs != [] {
      PromotedIsDone(Step(job, envs[0]).0, envs[1..]);
    }
  }

  /** However many snapshots are invalid, five answered steps a ref are enough to reach promotion, and one more to complete. */
  lemma {:induction false} InvalidSnapshotsDelayBoundedly(job: Job, log: seq<Event>, envs: seq<Env>)
    requires Valid(job, log) && Phase(job) == Fetching && AllAnswer(job, envs)
    requires |envs| >= StepsLeft(job)
    ensures After(job, envs).state in {Promoting, Completed}
    ensures |envs| > StepsLeft(job) ==> After(job, envs).state == Completed
    decreases |envs|
  {
    StepsAreLeft(job, log);
    StepMakesProgress(job, log, envs[0]);
    var (next, events) := Step(job, envs[0]);
    StepKeepsValid(job, log, envs[0]);
    hide Answers, Step, Valid;
    if next.state == Promoting {
      PromotedIsDone(next, envs[1..]);
      LeftIsOne(job);
    } else {
      hide StepsLeft;
      InvalidSnapshotsDelayBoundedly(next, log + events, envs[1..]);
    }
  }

  lemma LeftIsOne(job: Job)
    requires job.nextCommitIndex < |job.commitRefs|
    ensures StepsLeft(job) >= 1
  {
  }

  // ------------------------------------------------------ one step of fetching, told in full

  function First200(text: string): string { if |text| <= 200 then text else text[..200] }

  /** The first `n` refs of the next four are answered, and the one after them, if it is among the four, is not. */
  ghost predicate Answered(job: Job, fetch: string -> Fetched, n: nat) {
    var (refs, at) := (job.commitRefs, job.nextCommitIndex);
    && at + n <= |refs| && n <= 4
    && (forall k :: at <= k < at + n ==> fetch(refs[k].sha).Pricing?)
    && (n < 4 && at + n < |refs| ==> !fetch(refs[at + n].sha).Pricing?)
  }

  /** The events of a step: what was answered is applied, and then the ref that stopped it is skipped, if one did. */
  ghost predicate AreEvents(events: seq<Event>, job: Job, fetch: string -> Fetched, n: nat, stopped: bool)
    requires Answered(job, fetch, n) && (stopped ==> job.nextCommitIndex + n < |job.commitRefs|)
  {
    var (refs, at) := (job.commitRefs, job.nextCommitIndex);
    && |events| == n + (if stopped then 1 else 0)
    && (forall k :: 0 <= k < n ==> events[k] == Applied(Snapshot(refs[at + k], fetch(refs[at + k].sha).pricing)))
    && (stopped ==> events[n] == Skipped(refs[at + n]))
  }

  lemma PrefixIsAnswered(job: Job, fetch: string -> Fetched, n: nat)
    requires job.nextCommitIndex < |job.commitRefs| && Answered(job, fetch, n)
    ensures var (refs, at, snapshots) := (job.commitRefs, job.nextCommitIndex, FetchPrefix(NextRefs(job), fetch));
            && |snapshots| == n && |NextRefs(job)| == Min(4, |refs| - at)
            && (forall k :: 0 <= k < n ==> snapshots[k] == Snapshot(refs[at + k], fetch(refs[at + k].sha).pricing))
            && (n < |NextRefs(job)| ==> NextRefs(job)[n] == refs[at + n])
  {
    FetchedAtCursor(job, fetch);
    var snapshots, at := FetchPrefix(NextRefs(job), fetch), job.nextCommitIndex;
    assert |NextRefs(job)| == Min(4, |job.commitRefs| - at);
    hide FetchPrefix, NextRefs;
    assert |snapshots| < |NextRefs(job)| ==> NextRefs(job)[|snapshots|] == job.commitRefs[at + |snapshots|];
    assert n < |snapshots| ==> fetch(snapshots[n].ref.sha).Pricing?;
  }

  /**
   * A step of fetching takes the answers up to the first ref of the next four that has none. A ref the source did not
   * return fails the step, and so does an invalid one before the third attempt or a commit time that cannot be read;
   * otherwise what was answered is saved, the invalid ref skipped, and the job is to be promoted when none is left.
   */
  lemma FetchStepOutcome(job: Job, log: seq<Event>, env: Env, n: nat)
    requires Valid(job, log) && job.state == Fetching && Answered(job, env.fetch, n)
    ensures var ((next, events), refs, at) := (Step(job, env), job.commitRefs, job.nextCommitIndex);
            var stopped := n < 4 && at + n < |refs|;
            var timed := forall k :: at <= k < at + n ==> refs[k].committedAt.Some?;
            if stopped && env.fetch(refs[at + n].sha).NotFetched? then
              var reply := env.fetch(refs[at + n].sha);
              events == [Failed] && next == Wait(job, env.now, reply.error, reply.resetAt)
            else if (stopped && job.consecutiveFailures < 2) || !timed then
              events == [Failed] && next == Wait(job, env.now, "pricing history source unavailable", None)
            else
              && AreEvents(events, job, env.fetch, n, stopped)
              && next == Job(if at + |events| == |refs| then Promoting else Fetching, job.range, job.models, refs, 0, at + |events|,
                             None, None, 0, if stopped then Some("invalid pricing snapshot skipped") else None)
  {
    assert job.nextCommitIndex < |job.commitRefs| && job.listPage == 0;
    var snapshots, refs, at := FetchPrefix(NextRefs(job), env.fetch), job.commitRefs, job.nextCommitIndex;
    var stopped := n < 4 && at + n < |refs|;
    PrefixIsAnswered(job, env.fetch, n);
    hide Valid, FetchPrefix, NextRefs, AllTimed, Wait, SaveAndSkip, SaveOrWait, AreEvents;
    assert stopped <==> n < |NextRefs(job)|;
    assert Step(job, env) == StepFetching(job, env);
    hide Answered, Step;
    if stopped && env.fetch(refs[at + n].sha).NotFetched? {
    } else if stopped && job.consecutiveFailures < 2 {
    } else {
      SaveIs(job, env, n, snapshots, stopped);
      assert StepFetching(job, env) ==
        if stopped then SaveAndSkip(job, snapshots, refs[at + n], env.now) else SaveOrWait(job, snapshots, env.now);
      hide StepFetching;
    }
  }

  /** What saving the answered refs, and skipping the one that stopped the step if one did, comes to. */
  lemma SaveIs(job: Job, env: Env, n: nat, snapshots: seq<Snapshot>, stopped: bool)
    requires Answered(job, env.fetch, n) && |snapshots| == n && job.listPage == 0 && (stopped ==> job.nextCommitIndex + n < |job.commitRefs|)
    requires forall k :: 0 <= k < n ==>
      snapshots[k] == Snapshot(job.commitRefs[job.nextCommitIndex + k], env.fetch(job.commitRefs[job.nextCommitIndex + k].sha).pricing)
    ensures var (refs, at) := (job.commitRefs, job.nextCommitIndex);
            var timed := forall k :: at <= k < at + n ==> refs[k].committedAt.Some?;
            var (next, events) := if stopped then SaveAndSkip(job, snapshots, refs[at + n], env.now) else SaveOrWait(job, snapshots, env.now);
            if !timed then events == [Failed] && next == Wait(job, env.now, "pricing history source unavailable", None)
            else
              && AreEvents(events, job, env.fetch, n, stopped)
              && next == Job(if at + |events| == |refs| then Promoting else Fetching, job.range, job.models, refs, 0, at + |events|,
                             None, None, 0, if stopped then Some("invalid pricing snapshot skipped") else None)
  {
    var refs, at := job.commitRefs, job.nextCommitIndex;
    assert AllTimed(snapshots) <==> forall k :: at <= k < at + n ==> refs[k].committedAt.Some? by {
      if AllTimed(snapshots) {
        forall k | at <= k < at + n ensures refs[k].committedAt.Some? { assert snapshots[k - at].ref == refs[k]; }
      }
    }
    hide AllTimed, Wait;
  }

  /** What a waiting job holds: the error cut to 200 characters, and the time named by a rate limit. */
  lemma WaitLeaves(job: Job, now: int, error: string, resetAt: Option<int>)
    ensures Wait(job, now, error, resetAt) ==
      Job(WaitingSource, job.range, job.models, job.commitRefs, job.listPage, job.nextCommitIndex,
          if resetAt.Some? then resetAt else Some(RetryAt(job, now)), resetAt, job.consecutiveFailures + 1, Some(First200(error)))
  {
  }

  /** A source that cannot list fails the step, and so does one without a baseline. */
  lemma ListingFails(job: Job, env: Env)
    ensures job.state == Pending && env.baseline.Unavailable? ==>
      Step(job, env) == (Wait(job, env.now, env.baseline.error, env.baseline.resetAt), [Failed])
    ensures job.state == Pending && env.baseline == Replied([]) ==>
      Step(job, env) == (Wait(job, env.now, "pricing history baseline unavailable", None), [Failed])
    ensures job.state == Listing && env.page.Unavailable? ==>
      Step(job, env) == (Wait(job, env.now, env.page.error, env.page.resetAt), [Failed])
  {
    hide Wait, AppendUnique, ExecutionOrder;
  }

  // ------------------------------------------------- what the job says about itself

  /** Times stand only while the job waits, and the error is that of its last event. */
  ghost predicate TellsTruly(job: Job, log: seq<Event>) {
    && (job.nextAttemptAt.Some? <==> job.state == WaitingSource)
    && (job.rateLimitResetAt.Some? ==> job.rateLimitResetAt == job.nextAttemptAt)
    && (job.state == Completed || log == [] ==> job.lastError.None?)
    && (job.state != Completed && log != [] ==>
          match log[|log| - 1]
          case Failed => job.lastError.Some? && |job.lastError.value| <= 200
          case Skipped(_) => job.lastError == Some("invalid pricing snapshot skipped")
          case _ => job.lastError.None?)
  }

  lemma AnsweredAtCursor(job: Job, fetch: string -> Fetched)
    requires job.nextCommitIndex < |job.commitRefs|
    ensures Answered(job, fetch, |FetchPrefix(NextRefs(job), fetch)|)
  {
    FetchedAtCursor(job, fetch);
    var snapshots, refs, at := FetchPrefix(NextRefs(job), fetch), job.commitRefs, job.nextCommitIndex;
    assert |NextRefs(job)| == Min(4, |refs| - at);
    hide FetchPrefix, NextRefs;
    forall k | at <= k < at + |snapshots| ensures fetch(refs[k].sha).Pricing? {
      assert snapshots[k - at].ref == refs[k];
    }
  }

  lemma WaitTellsTruly(job: Job, log: seq<Event>, now: int, error: string, resetAt: Option<int>)
    ensures TellsTruly(Wait(job, now, error, resetAt), log + [Failed])
  {
    hide RetryAt;
  }

  lemma FetchTellsTruly(job: Job, log: seq<Event>, env: Env)
    requires Valid(job, log) && job.state == Fetching
    ensures TellsTruly(Step(job, env).0, log + Step(job, env).1)
  {
    assert job.nextCommitIndex < |job.commitRefs|;
    var n := |FetchPrefix(NextRefs(job), env.fetch)|;
    AnsweredAtCursor(job, env.fetch);
    hide Wait, Valid, Step, FetchPrefix, NextRefs, TellsTruly, AreEvents;
    FetchStepOutcome(job, log, env, n);
    var (next, events) := Step(job, env);
    var at := job.nextCommitIndex + n;
    var stopped := n < 4 && at < |job.commitRefs|;
    if events == [Failed] {
      var error, resetAt := FailedIsWait(job, log, env);
      WaitTellsTruly(job, log, env.now, error, resetAt);
    } else {
      SavedTellsTruly(job, log, env, n, stopped, next, events);
    }
  }

  lemma SavedTellsTruly(job: Job, log: seq<Event>, env: Env, n: nat, stopped: bool, next: Job, events: seq<Event>)
    requires job.nextCommitIndex < |job.commitRefs| && Answered(job, env.fetch, n)
    requires stopped <==> n < 4 && job.nextCommitIndex + n < |job.commitRefs|
    requires AreEvents(events, job, env.fetch, n, stopped)
    requires next.state in {Promoting, Fetching} && next.nextAttemptAt.None? && next.rateLimitResetAt.None?
    requires next.lastError == if stopped then Some("invalid pricing snapshot skipped") else None
    ensures TellsTruly(next, log + events)
  {
    assert |events| > 0;
    assert (log + events)[|log + events| - 1] == events[|events| - 1];
  }

  lemma StepTellsTruly(job: Job, log: seq<Event>, env: Env)
    requires Valid(job, log) && TellsTruly(job, log)
    ensures TellsTruly(Step(job, env).0, log + Step(job, env).1)
  {
    assert log + [] == log;
    match job.state
    case Pending =>
      ListingFails(job, env);
      if env.baseline.Unavailable? { WaitTellsTruly(job, log, env.now, env.baseline.error, env.baseline.resetAt); }
      WaitTellsTruly(job, log, env.now, "pricing history baseline unavailable", None);
      hide Wait, Valid;
    case Listing =>
      ListingFails(job, env);
      if env.page.Unavailable? { WaitTellsTruly(job, log, env.now, env.page.error, env.page.resetAt); }
      hide Wait, Valid, AppendUnique, ExecutionOrder;
    case Fetching =>
      hide Step, Valid;
      FetchTellsTruly(job, log, env);
    case _ => hide Valid;
  }

  /** In every run the times and the error of the job are those of what happened last. */
  lemma {:induction false} RunTellsTruly(range: Range, models: seq<string>, envs: seq<Env>)
    ensures var (job, log) := Run(Created(range, models), envs);
            TellsTruly(job, log)
    decreases |envs|
  {
    if envs != [] {
      hide Valid, Step, TellsTruly;
      RunIsValid(range, models, envs[..|envs| - 1]);
      RunTellsTruly(range, models, envs[..|envs| - 1]);
      var (before, log) := Run(Created(range, models), envs[..|envs| - 1]);
      StepTellsTruly(before, log, envs[|envs| - 1]);
    }
  }

  // ------------------------------------------- newest-first pages, oldest-first work

  ghost predicate TimedRefs(refs: seq<Ref>) { forall k :: 0 <= k < |refs| ==> refs[k].committedAt.Some? }

  ghost predicate NewestFirst(refs: seq<Ref>) {
    TimedRefs(refs) && forall i, j :: 0 <= i < j < |refs| ==> refs[i].committedAt.value >= refs[j].committedAt.value
  }

  ghost predicate OldestFirst(refs: seq<Ref>) {
    TimedRefs(refs) && forall i, j :: 0 <= i < j < |refs| ==> refs[i].committedAt.value <= refs[j].committedAt.value
  }

  lemma SingleIsUnique(ref: Ref)
    ensures UniqueBySha([ref]) == [ref]
    ensures NewestFirst([])
  {
    assert [ref][..0] == [];
  }

  lemma SplitNewestFirst(refs: seq<Ref>)
    requires NewestFirst(refs) && refs != []
    ensures NewestFirst(refs[..|refs| - 1]) && refs[|refs| - 1].committedAt.Some?
    ensures forall r | r in refs[..|refs| - 1] :: r in refs && r.committedAt.Some? && r.committedAt.value >= refs[|refs| - 1].committedAt.value
  {
  }

  lemma AppendNewestFirst(refs: seq<Ref>, last: Ref)
    requires NewestFirst(refs) && last.committedAt.Some?
    requires forall r | r in refs :: r.committedAt.Some? && r.committedAt.value >= last.committedAt.value
    ensures NewestFirst(refs + [last])
  {
  }

  /** Dropping repeated shas drops refs and reorders none, so the listing stays newest first. */
  lemma {:induction false} UniqueKeepsNewestFirst(baseline: Ref, changes: seq<Ref>)
    requires NewestFirst(changes)
    ensures var unique := UniqueBySha([baseline] + changes);
            && unique != [] && unique[0] == baseline
            && (forall r | r in unique[1..] :: r in changes)
            && NewestFirst(unique[1..])
    decreases |changes|
  {
    hide Shas, NewestFirst;
    if changes == [] {
      SingleIsUnique(baseline);
      assert [baseline] + changes == [baseline] && [baseline][1..] == [];
    } else {
      var earlier, last := changes[..|changes| - 1], changes[|changes| - 1];
      SplitNewestFirst(changes);
      UniqueKeepsNewestFirst(baseline, earlier);
      var unique := UniqueBySha([baseline] + earlier);
      assert ([baseline] + changes)[..|changes|] == [baseline] + earlier;
      assert (unique + [last])[1..] == unique[1..] + [last];
      assert UniqueBySha([baseline] + changes) in {unique, unique + [last]};
      hide UniqueBySha;
      AppendNewestFirst(unique[1..], last);
    }
  }

  /** The changes of a newest-first listing are executed oldest first. */
  lemma ExecutionIsOldestFirst(refs: seq<Ref>)
    requires refs != [] && DistinctShas(refs) && NewestFirst(refs[1..])
    ensures |ExecutionOrder(refs)| == |refs| && ExecutionOrder(refs)[0] == refs[0]
    ensures OldestFirst(ExecutionOrder(refs)[1..])
  {
    ExecutionOrderIsReversal(refs);
    var changes := ExecutionOrder(refs)[1..];
    forall k | 0 <= k < |changes| ensures changes[k] == refs[1..][|changes| - 1 - k] {
    }
  }

  /** A baseline is not after the range start. */
  predicate IsBaseline(ref: Ref, range: Range) { ref.committedAt.Some? && ref.committedAt.value <= range.from }

  /** The baseline, then a listing that is newest first until it is complete; then the work list is oldest first. */
  ghost predicate InOrder(job: Job) {
    match Phase(job)
    case Pending => true
    case Listing => job.commitRefs != [] && IsBaseline(job.commitRefs[0], job.range) && NewestFirst(job.commitRefs[1..])
    case _ => job.commitRefs != [] && IsBaseline(job.commitRefs[0], job.range) && OldestFirst(job.commitRefs[1..])
  }

  /** The baseline the source names is not after the range start; its pages go on newest first where the listing stopped. */
  ghost predicate AnswersInOrder(job: Job, env: Env) {
    && (job.state == Pending && env.baseline.Replied? && env.baseline.value != [] ==> IsBaseline(env.baseline.value[0], job.range))
    && (job.state == Listing && env.page.Replied? && job.commitRefs != [] ==> NewestFirst(job.commitRefs[1..] + env.page.value))
  }

  lemma PageKeepsInOrder(job: Job, page: seq<Ref>)
    requires job.commitRefs != [] && NewestFirst(job.commitRefs[1..] + page)
    ensures var refs := AppendUnique(job.commitRefs, page);
            && refs != [] && refs[0] == job.commitRefs[0] && NewestFirst(refs[1..])
            && ExecutionOrder(refs) != [] && ExecutionOrder(refs)[0] == job.commitRefs[0] && OldestFirst(ExecutionOrder(refs)[1..])
            && (forall r | r in refs[1..] :: r in job.commitRefs[1..] + page && r.sha != job.commitRefs[0].sha)
            && forall r | r in ExecutionOrder(refs)[1..] :: r in refs[1..]
  {
    assert job.commitRefs + page == [job.commitRefs[0]] + (job.commitRefs[1..] + page);
    UniqueKeepsNewestFirst(job.commitRefs[0], job.commitRefs[1..] + page);
    UniqueIsDistinct(job.commitRefs + page);
    var refs := AppendUnique(job.commitRefs, page);
    hide UniqueBySha, NewestFirst, OldestFirst;
    ExecutionIsOldestFirst(refs);
    ExecutionOrderIsReversal(refs);
    forall r | r in ExecutionOrder(refs)[1..] ensures r in refs[1..] {
      var k :| 0 < k < |refs| && ExecutionOrder(refs)[k] == r;
      assert refs[1..][|refs| - k - 1] == r;
    }
  }

  lemma StepKeepsInOrder(job: Job, log: seq<Event>, env: Env)
    requires Valid(job, log) && InOrder(job) && AnswersInOrder(job, env)
    ensures InOrder(Step(job, env).0)
  {
    StepKeepsRange(job, env);
    if Phase(job) in {Fetching, Promoting, Completed} {
      CursorOnlyGrows(job, log, env);
    } else if job.state == Listing {
      hide AppendUnique, ExecutionOrder, NewestFirst, OldestFirst, DistinctShas, Handled, FailuresSince;
      if env.page.Replied? { PageKeepsInOrder(job, env.page.value); }
    } else {
      hide Handled, FailuresSince;
    }
  }

  lemma StepKeepsRange(job: Job, env: Env)
    ensures Step(job, env).0.range == job.range && Step(job, env).0.models == job.models
  {
    hide FetchPrefix, NextRefs, AllTimed, AppliedEvents, RetryAt, AppendUnique, ExecutionOrder;
  }

  /** Every answer of the source in a run is in order. */
  ghost predicate SourceInOrder(range: Range, models: seq<string>, envs: seq<Env>) {
    forall k :: 0 <= k < |envs| ==> AnswersInOrder(Run(Created(range, models), envs[..k]).0, envs[k])
  }

  lemma SourceInOrderPrefix(range: Range, models: seq<string>, envs: seq<Env>)
    requires envs != [] && SourceInOrder(range, models, envs)
    ensures SourceInOrder(range, models, envs[..|envs| - 1])
    ensures AnswersInOrder(Run(Created(range, models), envs[..|envs| - 1]).0, envs[|envs| - 1])
  {
    var earlier := envs[..|envs| - 1];
    hide AnswersInOrder, Run;
    forall k | 0 <= k < |earlier| ensures AnswersInOrder(Run(Created(range, models), earlier[..k]).0, earlier[k]) {
      assert earlier[..k] == envs[..k];
    }
  }

  /** In every run whose source answers in order, the work list after the baseline is oldest first. */
  lemma {:induction false} RunIsInOrder(range: Range, models: seq<string>, envs: seq<Env>)
    requires SourceInOrder(range, models, envs)
    ensures InOrder(Run(Created(range, models), envs).0)
    ensures Run(Created(range, models), envs).0.range == range
    decreases |envs|
  {
    if envs != [] {
      var earlier := envs[..|envs| - 1];
      SourceInOrderPrefix(range, models, envs);
      hide InOrder, AnswersInOrder, Valid, Step, SourceInOrder;
      RunIsInOrder(range, models, earlier);
      RunIsValid(range, models, earlier);
      var (before, log) := Run(Created(range, models), earlier);
      StepKeepsInOrder(before, log, envs[|envs| - 1]);
      StepKeepsRange(before, envs[|envs| - 1]);
    }
  }

  /** Apart from the baseline the listing has no commit at the range start or before it. */
  ghost predicate StartsLater(refs: seq<Ref>, range: Range) {
    forall k :: 0 < k < |refs| ==> refs[k].committedAt.Some? && range.from < refs[k].committedAt.value
  }

  /** A page names commits after the range start only, and perhaps the baseline again. */
  ghost predicate PageStartsLater(job: Job, env: Env) {
    job.state == Listing && env.page.Replied? && job.commitRefs != [] ==>
      forall r | r in env.page.value :: r.sha == job.commitRefs[0].sha || (r.committedAt.Some? && job.range.from < r.committedAt.value)
  }

  ghost predicate SourceStartsLater(range: Range, models: seq<string>, envs: seq<Env>) {
    forall k :: 0 <= k < |envs| ==> PageStartsLater(Run(Created(range, models), envs[..k]).0, envs[k])
  }

  lemma StepStartsLater(job: Job, log: seq<Event>, env: Env)
    requires Valid(job, log) && InOrder(job) && AnswersInOrder(job, env)
    requires StartsLater(job.commitRefs, job.range) && PageStartsLater(job, env)
    ensures StartsLater(Step(job, env).0.commitRefs, job.range)
  {
    if Phase(job) in {Fetching, Promoting, Completed} {
      CursorOnlyGrows(job, log, env);
    } else if job.state == Listing {
      hide AppendUnique, ExecutionOrder, NewestFirst, OldestFirst, DistinctShas, Handled, FailuresSince;
      if env.page.Replied? {
        PageKeepsInOrder(job, env.page.value);
        LaterOnly(job, env);
      }
    } else {
      hide Handled, FailuresSince;
    }
  }

  lemma LaterOnly(job: Job, env: Env)
    requires job.state == Listing && env.page.Replied? && job.commitRefs != []
    requires StartsLater(job.commitRefs, job.range) && PageStartsLater(job, env)
    requires NewestFirst(job.commitRefs[1..] + env.page.value)
    ensures StartsLater(AppendUnique(job.commitRefs, env.page.value), job.range)
    ensures StartsLater(ExecutionOrder(AppendUnique(job.commitRefs, env.page.value)), job.range)
  {
    PageKeepsInOrder(job, env.page.value);
    var refs := AppendUnique(job.commitRefs, env.page.value);
    hide AppendUnique, ExecutionOrder, NewestFirst, OldestFirst;
    forall r | r in refs[1..] ensures r.committedAt.Some? && job.range.from < r.committedAt.value {
      assert r in job.commitRefs[1..] || r in env.page.value;
    }
    var order := ExecutionOrder(refs);
    forall k | 0 < k < |refs| ensures refs[k].committedAt.Some? && job.range.from < refs[k].committedAt.value {
      assert refs[k] == refs[1..][k - 1];
    }
    forall k | 0 < k < |order| ensures order[k].committedAt.Some? && job.range.from < order[k].committedAt.value {
      assert order[k] == order[1..][k - 1];
    }
  }

  lemma {:induction false} RunStartsLater(range: Range, models: seq<string>, envs: seq<Env>)
    requires SourceInOrder(range, models, envs) && SourceStartsLater(range, models, envs)
    ensures StartsLater(Run(Created(range, models), envs).0.commitRefs, range)
    decreases |envs|
  {
    if envs != [] {
      var last := |envs| - 1;
      var earlier := envs[..last];
      SourceInOrderPrefix(range, models, envs);
      hide InOrder, AnswersInOrder, Valid, Step, SourceInOrder, StartsLater, PageStartsLater;
      forall k | 0 <= k < last ensures PageStartsLater(Run(Created(range, models), earlier[..k]).0, earlier[k]) {
        assert earlier[..k] == envs[..k];
      }
      RunStartsLater(range, models, earlier);
      RunIsInOrder(range, models, earlier);
      RunIsValid(range, models, earlier);
      var (before, log) := Run(Created(range, models), earlier);
      StepStartsLater(before, log, envs[last]);
    }
  }

  // ------------------------------------------------ what reaches the candidate table

  function AppliedSnapshots(log: seq<Event>): seq<Snapshot> {
    if log == [] then []
    else
      var last := log[|log| - 1];
      AppliedSnapshots(log[..|log| - 1]) + if last.Applied? then [last.snapshot] else []
  }

  /** Each ref comes into force no earlier than the one before. */
  ghost predicate RefsInSequence(refs: seq<Ref>, range: Range) {
    && TimedRefs(refs)
    && forall i, j :: 0 <= i < j < |refs| ==>
         Boundary(range.from, refs[i].committedAt.value) <= Boundary(range.from, refs[j].committedAt.value)
  }

  /** A baseline not after the range start and then the oldest first come into force one after the other. */
  lemma WorkListInSequence(refs: seq<Ref>, range: Range)
    requires refs != [] && IsBaseline(refs[0], range) && OldestFirst(refs[1..])
    ensures RefsInSequence(refs, range)
  {
    assert forall k :: 0 < k < |refs| ==> refs[k] == refs[1..][k - 1];
    forall i, j | 0 < i < j < |refs| ensures refs[i].committedAt.value <= refs[j].committedAt.value {
      assert refs[1..][i - 1].committedAt.value <= refs[1..][j - 1].committedAt.value;
    }
  }

  lemma PrefixInSequence(refs: seq<Ref>, n: nat, range: Range)
    requires n <= |refs| && RefsInSequence(refs, range)
    ensures RefsInSequence(refs[..n], range)
  {
  }

  /** In every run whose source answers in order, the refs are dealt with as they come into force. */
  lemma HandledInSequence(range: Range, models: seq<string>, envs: seq<Env>)
    requires SourceInOrder(range, models, envs)
    ensures RefsInSequence(Handled(Run(Created(range, models), envs).1), range)
  {
    RunIsInOrder(range, models, envs);
    RunIsValid(range, models, envs);
    var (job, log) := Run(Created(range, models), envs);
    hide Run, SourceInOrder, Handled, FailuresSince, OldestFirst, NewestFirst, DistinctShas;
    if Phase(job) in {Pending, Listing} {
      assert Handled(log) == [];
    } else {
      WorkListInSequence(job.commitRefs, job.range);
      PrefixInSequence(job.commitRefs, job.nextCommitIndex, range);
    }
  }

  /** Where the source's later commits come after the range start, so do all refs dealt with but the first. */
  lemma HandledStartsLater(range: Range, models: seq<string>, envs: seq<Env>)
    requires SourceInOrder(range, models, envs) && SourceStartsLater(range, models, envs)
    ensures StartsLater(Handled(Run(Created(range, models), envs).1), range)
  {
    RunStartsLater(range, models, envs);
    RunIsValid(range, models, envs);
    hide Run, SourceInOrder, SourceStartsLater, Handled, FailuresSince, DistinctShas, FieldsFit;
  }

  /** The next snapshot comes into force no earlier than these. */
  ghost predicate NoneAfter(snapshots: seq<Snapshot>, last: Snapshot, range: Range) {
    && Timed(snapshots) && last.ref.committedAt.Some?
    && forall s | s in snapshots :: s.ref.committedAt.Some? && BoundaryOf(s, range) <= BoundaryOf(last, range)
  }

  lemma AppendInSequence(snapshots: seq<Snapshot>, last: Snapshot, range: Range)
    requires InSequence(snapshots, range) && NoneAfter(snapshots, last, range)
    ensures InSequence(snapshots + [last], range)
  {
  }

  lemma SplitRefs(refs: seq<Ref>, range: Range)
    requires RefsInSequence(refs, range) && refs != []
    ensures var earlier, last := refs[..|refs| - 1], refs[|refs| - 1];
            && RefsInSequence(earlier, range) && last.committedAt.Some?
            && forall r | r in earlier :: r.committedAt.Some? && Boundary(range.from, r.committedAt.value) <= Boundary(range.from, last.committedAt.value)
  {
  }

  /** The applied snapshots come into force one after the other when the handled refs do, skips or not. */
  lemma {:induction false} AppliedInSequence(log: seq<Event>, range: Range)
    requires RefsInSequence(Handled(log), range)
    ensures InSequence(AppliedSnapshots(log), range)
    ensures forall s | s in AppliedSnapshots(log) :: s.ref in Handled(log)
    decreases |log|
  {
    hide RefsInSequence, Boundary;
    if log != [] {
      var earlier, last := log[..|log| - 1], log[|log| - 1];
      if last.Applied? || last.Skipped? {
        SplitRefs(Handled(log), range);
        assert Handled(log)[..|Handled(earlier)|] == Handled(earlier);
      } else {
        assert Handled(log) == Handled(earlier);
      }
      AppliedInSequence(earlier, range);
      if last.Applied? {
        assert NoneAfter(AppliedSnapshots(earlier), last.snapshot, range);
        AppendInSequence(AppliedSnapshots(earlier), last.snapshot, range);
      } else {
        assert AppliedSnapshots(log) == AppliedSnapshots(earlier);
      }
    }
  }

  /** An applied snapshot stands no earlier among the applied ones than its ref among the handled ones. */
  lemma {:induction false} AppliedWasHandled(log: seq<Event>, k: nat) returns (j: nat)
    requires k < |AppliedSnapshots(log)|
    ensures k <= j < |Handled(log)| && AppliedSnapshots(log)[k].ref == Handled(log)[j]
    ensures |AppliedSnapshots(log)| <= |Handled(log)|
    decreases |log|
  {
    var earlier, last := log[..|log| - 1], log[|log| - 1];
    if k < |AppliedSnapshots(earlier)| {
      j := AppliedWasHandled(earlier, k);
    } else {
      j := |Handled(earlier)|;
      if k > 0 { var _ := AppliedWasHandled(earlier, k - 1); }
    }
  }

  /** So where the handled refs start later, the applied snapshots but the first come into force after the range start. */
  lemma AppliedStartLater(log: seq<Event>, range: Range)
    requires StartsLater(Handled(log), range)
    ensures forall k | 0 < k < |AppliedSnapshots(log)| ::
              AppliedSnapshots(log)[k].ref.committedAt.Some? && range.from < BoundaryOf(AppliedSnapshots(log)[k], range)
  {
    hide AppliedSnapshots, Handled;
    forall k: nat | 0 < k < |AppliedSnapshots(log)|
      ensures AppliedSnapshots(log)[k].ref.committedAt.Some? && range.from < BoundaryOf(AppliedSnapshots(log)[k], range)
    {
      var j := AppliedWasHandled(log, k);
    }
  }
}

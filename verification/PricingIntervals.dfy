/**
 * Validity intervals of model prices over a range
 * (apps/web/lib/pricing-history-intervals.ts).
 */
module PricingIntervals {
  import opened Prelude
  import opened PricingModel

  datatype OpenCandidate = OpenCandidate(
    modelId: string, sourceModelId: string, effectiveAt: int, price: Price, sha: string, committedAt: int)

  datatype Candidate = Candidate(open: OpenCandidate, validUntil: int)

  datatype State = State(
    rangeFrom: int, models: seq<string>, lastCommittedAt: Option<int>,
    open: map<string, OpenCandidate>, closed: seq<Candidate>)

  function Unique(models: seq<string>): (unique: seq<string>)
    ensures forall i, j :: 0 <= i < j < |unique| ==> unique[i] != unique[j]
    ensures forall m :: m in unique <==> m in models
  {
    if models == [] then []
    else
      var earlier := Unique(models[..|models| - 1]);
      var last := models[|models| - 1];
      if last in earlier then earlier else earlier + [last]
  }

  function CreateState(rangeFrom: int, models: seq<string>): State {
    State(rangeFrom, Unique(models), None, map[], [])
  }

  function CloseCandidate(open: OpenCandidate, validUntil: int): seq<Candidate> {
    if validUntil <= open.effectiveAt then [] else [Candidate(open, validUntil)]
  }

  predicate Unchanged(previous: OpenCandidate, resolved: Resolved) {
    previous.sourceModelId == resolved.sourceModelId && SamePricing(previous.price, resolved.price)
  }

  function Opened(model: string, resolved: Resolved, boundary: int, ref: Ref, committedAt: int): OpenCandidate {
    OpenCandidate(model, resolved.sourceModelId, boundary, resolved.price, ref.sha, committedAt)
  }

  /** What one snapshot does to one model's open candidate, and the candidates it closes. */
  function StepModel(previous: Option<OpenCandidate>, resolved: Option<Resolved>, model: string, boundary: int, ref: Ref, committedAt: int):
    (Option<OpenCandidate>, seq<Candidate>)
  {
    if previous.Some? && resolved.Some? && Unchanged(previous.value, resolved.value) then (previous, [])
    else
      (if resolved.Some? then Some(Opened(model, resolved.value, boundary, ref, committedAt)) else None,
       if previous.Some? then CloseCandidate(previous.value, boundary) else [])
  }

  function Lookup(open: map<string, OpenCandidate>, model: string): Option<OpenCandidate> {
    if model in open then Some(open[model]) else None
  }

  function Store(open: map<string, OpenCandidate>, model: string, value: Option<OpenCandidate>): map<string, OpenCandidate> {
    match value
    case None => open - {model}
    case Some(c) => open[model := c]
  }

  ghost function ApplyModels(open: map<string, OpenCandidate>, closed: seq<Candidate>, models: seq<string>,
                       snapshot: Snapshot, boundary: int, committedAt: int): (map<string, OpenCandidate>, seq<Candidate>)
  {
    if models == [] then (open, closed)
    else
      var (open', closed') := ApplyModels(open, closed, models[..|models| - 1], snapshot, boundary, committedAt);
      var model := models[|models| - 1];
      var (next, done) := StepModel(Lookup(open', model), Resolve(snapshot, model), model, boundary, snapshot.ref, committedAt);
      (Store(open', model, next), closed' + done)
  }

  function TimeError(state: State, snapshot: Snapshot): Option<string> {
    if snapshot.ref.committedAt.None? then Some("invalid pricing snapshot time")
    else
      var at := snapshot.ref.committedAt.value;
      if state.lastCommittedAt.None? && at > state.rangeFrom then Some("baseline snapshot must not be after range start")
      else if state.lastCommittedAt.Some? && at <= state.lastCommittedAt.value then Some("pricing snapshots must be chronological")
      else None
  }

  ghost function Applied(state: State, snapshot: Snapshot): Result<State> {
    match TimeError(state, snapshot)
    case Some(error) => Err(error)
    case None =>
      var at := snapshot.ref.committedAt.value;
      var (open, closed) := ApplyModels(state.open, state.closed, state.models, snapshot, Boundary(state.rangeFrom, at), at);
      Ok(state.(lastCommittedAt := Some(at), open := open, closed := closed))
  }

  lemma NoModels(open: map<string, OpenCandidate>, closed: seq<Candidate>, snapshot: Snapshot, boundary: int, at: int)
    ensures ApplyModels(open, closed, [], snapshot, boundary, at) == (open, closed)
  {
  }

  lemma NextModel(open: map<string, OpenCandidate>, closed: seq<Candidate>, models: seq<string>, n: nat,
                  snapshot: Snapshot, boundary: int, at: int)
    requires n < |models|
    ensures var (open', closed') := ApplyModels(open, closed, models[..n], snapshot, boundary, at);
            var (next, done) := StepModel(Lookup(open', models[n]), Resolve(snapshot, models[n]), models[n], boundary, snapshot.ref, at);
            ApplyModels(open, closed, models[..n + 1], snapshot, boundary, at) == (Store(open', models[n], next), closed' + done)
  {
    assert models[..n + 1][..n] == models[..n];
  }

  /** One model's turn in the loop over the models. */
  method ApplyModel(open: map<string, OpenCandidate>, closed: seq<Candidate>, model: string, snapshot: Snapshot,
                    boundary: int, committedAt: int) returns (open': map<string, OpenCandidate>, closed': seq<Candidate>)
    ensures var (next, done) := StepModel(Lookup(open, model), Resolve(snapshot, model), model, boundary, snapshot.ref, committedAt);
            (open', closed') == (Store(open, model, next), closed + done)
  {
    hide Unchanged, CloseCandidate, Opened, Resolve;
    open', closed' := open, closed;
    var previous, resolved := Lookup(open, model), Resolve(snapshot, model);
    if previous.Some? && resolved.Some? && Unchanged(previous.value, resolved.value) {
      assert Store(open, model, previous) == open;
      return;
    }
    if previous.Some? {
      closed' := closed' + CloseCandidate(previous.value, boundary);
      open' := open' - {model};
    }
    assert previous.None? ==> open - {model} == open && closed + [] == closed;
    if resolved.Some? {
      open' := open'[model := Opened(model, resolved.value, boundary, snapshot.ref, committedAt)];
      assert open' == open[model := open'[model]];
    }
  }

  method ApplyPricingSnapshot(state: State, snapshot: Snapshot) returns (result: Result<State>)
    ensures result == Applied(state, snapshot)
  {
    var error := TimeError(state, snapshot);
    if error.Some? { return Err(error.value); }
    var committedAt := snapshot.ref.committedAt.value;
    var boundary := if committedAt < state.rangeFrom then state.rangeFrom else committedAt;
    var open, closed := state.open, state.closed;
    assert boundary == Boundary(state.rangeFrom, committedAt);
    hide TimeError, Boundary, Resolve, ApplyModels, StepModel, Store, Lookup;
    NoModels(open, closed, snapshot, boundary, committedAt);
    for n := 0 to |state.models|
      invariant (open, closed) == ApplyModels(state.open, state.closed, state.models[..n], snapshot, boundary, committedAt)
    {
      NextModel(state.open, state.closed, state.models, n, snapshot, boundary, committedAt);
      open, closed := ApplyModel(open, closed, state.models[n], snapshot, boundary, committedAt);
    }
    assert state.models[..|state.models|] == state.models;
    result := Ok(state.(lastCommittedAt := Some(committedAt), open := open, closed := closed));
  }

  // ------------------------------------------------------------------ closing

  function OfModel(candidates: seq<Candidate>, model: string): seq<Candidate> {
    if candidates == [] then []
    else (if candidates[0].open.modelId == model then [candidates[0]] else []) + OfModel(candidates[1..], model)
  }

  /** One after the other, none of them empty, none before `from`. */
  ghost predicate Chain(candidates: seq<Candidate>, from: int) {
    && (forall i :: 0 <= i < |candidates| ==>
          from <= candidates[i].open.effectiveAt < candidates[i].validUntil)
    && forall i, j :: 0 <= i < j < |candidates| ==> candidates[i].validUntil <= candidates[j].open.effectiveAt
  }

  /** What holds of every state built by applying snapshots. */
  ghost predicate ValidState(state: State) {
    && (forall m | m in state.open :: state.open[m].modelId == m && state.rangeFrom <= state.open[m].effectiveAt)
    && (forall m: string :: Chain(OfModel(state.closed, m), state.rangeFrom))
    && forall m, i | m in state.open && 0 <= i < |OfModel(state.closed, m)| ::
         OfModel(state.closed, m)[i].validUntil <= state.open[m].effectiveAt
  }

  predicate InRange(c: Candidate, rangeFrom: int, rangeTo: int) {
    c.open.effectiveAt >= rangeFrom && c.validUntil <= rangeTo
  }

  function Within(candidates: seq<Candidate>, rangeFrom: int, rangeTo: int): seq<Candidate> {
    if candidates == [] then []
    else
      (if InRange(candidates[0], rangeFrom, rangeTo) then [candidates[0]] else [])
      + Within(candidates[1..], rangeFrom, rangeTo)
  }

  /** The collation rank decides between models, the start time within one. */
  predicate Before(a: Candidate, b: Candidate, rank: string -> int) {
    || rank(a.open.modelId) < rank(b.open.modelId)
    || (rank(a.open.modelId) == rank(b.open.modelId) && a.open.effectiveAt <= b.open.effectiveAt)
  }

  function Insert(c: Candidate, sorted: seq<Candidate>, rank: string -> int): seq<Candidate> {
    if sorted == [] || Before(c, sorted[0], rank) then [c] + sorted
    else [sorted[0]] + Insert(c, sorted[1..], rank)
  }

  function Sort(candidates: seq<Candidate>, rank: string -> int): seq<Candidate> {
    if candidates == [] then [] else Insert(candidates[0], Sort(candidates[1..], rank), rank)
  }

  /** The open candidate of a model, closed at the end of the range. */
  function ClosedAtEnd(state: State, model: string, rangeTo: int): seq<Candidate> {
    if model in state.open then CloseCandidate(state.open[model], rangeTo) else []
  }

  /** The candidates of one model that closing the range returns. */
  ghost function Intervals(state: State, model: string, rangeTo: int): seq<Candidate> {
    Within(OfModel(state.closed, model) + ClosedAtEnd(state, model, rangeTo), state.rangeFrom, rangeTo)
  }

  method ClosePricingIntervals(state: State, rangeTo: int, rank: string -> int) returns (result: Result<seq<Candidate>>)
    requires ValidState(state)
    ensures rangeTo < state.rangeFrom ==> result == Err("invalid pricing history range end")
    ensures rangeTo >= state.rangeFrom ==>
      && result.Ok?
      && IsSorted(result.value, rank)
      && forall model: string :: OfModel(result.value, model) == Intervals(state, model, rangeTo)
  {
    if rangeTo < state.rangeFrom { return Err("invalid pricing history range end"); }
    var candidates := CollectCandidates(state, rangeTo);
    var kept := Within(candidates, state.rangeFrom, rangeTo);
    result := Ok(Sort(kept, rank));
    SortIsSorted(kept, rank);
    forall m: string ensures OfModel(Sort(kept, rank), m) == Intervals(state, m, rangeTo) {
      SortedIntervals(state, candidates, m, rangeTo, rank);
    }
  }

  /** The closed candidates, then the open ones closed at the end of the range, model by model in any order. */
  method CollectCandidates(state: State, rangeTo: int) returns (candidates: seq<Candidate>)
    requires ValidState(state)
    ensures forall m: string :: OfModel(candidates, m) == OfModel(state.closed, m) + ClosedAtEnd(state, m, rangeTo)
  {
    hide OfModel, CloseCandidate, Chain;
    candidates := state.closed;
    var keys := state.open.Keys;
    while keys != {}
      invariant keys <= state.open.Keys
      invariant forall m: string | m in keys :: OfModel(candidates, m) == OfModel(state.closed, m)
      invariant forall m: string | m !in keys :: OfModel(candidates, m) == OfModel(state.closed, m) + ClosedAtEnd(state, m, rangeTo)
      decreases keys
    {
      var key :| key in keys;
      var before, open := candidates, state.open[key];
      candidates := candidates + CloseCandidate(open, rangeTo);
      keys := keys - {key};
      forall m: string ensures OfModel(candidates, m) == OfModel(before, m) + (if m == key then CloseCandidate(open, rangeTo) else []) {
        OfModelAfter(before, open, rangeTo, m);
      }
    }
  }

  lemma OfModelAfter(candidates: seq<Candidate>, open: OpenCandidate, until: int, model: string)
    ensures OfModel(candidates + CloseCandidate(open, until), model) ==
      OfModel(candidates, model) + (if model == open.modelId then CloseCandidate(open, until) else [])
  {
    OfModelConcat(candidates, CloseCandidate(open, until), model);
  }

  lemma SortedIntervals(state: State, candidates: seq<Candidate>, model: string, rangeTo: int, rank: string -> int)
    requires ValidState(state)
    requires OfModel(candidates, model) == OfModel(state.closed, model) + ClosedAtEnd(state, model, rangeTo)
    ensures OfModel(Sort(Within(candidates, state.rangeFrom, rangeTo), rank), model) == Intervals(state, model, rangeTo)
  {
    hide Sort;
    WithinOfModel(candidates, model, state.rangeFrom, rangeTo);
    ClosedIsChain(state, model, rangeTo);
    WithinChain(OfModel(candidates, model), state.rangeFrom, rangeTo);
    SortKeepsChains(Within(candidates, state.rangeFrom, rangeTo), model, state.rangeFrom, rank);
  }

  lemma {:induction false} OfModelConcat(a: seq<Candidate>, b: seq<Candidate>, model: string)
    ensures OfModel(a + b, model) == OfModel(a, model) + OfModel(b, model)
    decreases |a|
  {
    if a == [] {
      assert a + b == b;
    } else {
      var head := if a[0].open.modelId == model then [a[0]] else [];
      OfModelConcat(a[1..], b, model);
      assert (a + b)[1..] == a[1..] + b;
      assert OfModel(a + b, model) == head + OfModel(a[1..] + b, model);
      assert OfModel(a, model) == head + OfModel(a[1..], model);
      assert head + (OfModel(a[1..], model) + OfModel(b, model)) == (head + OfModel(a[1..], model)) + OfModel(b, model);
    }
  }

  lemma {:induction false} WithinOfModel(candidates: seq<Candidate>, model: string, from: int, to: int)
    ensures OfModel(Within(candidates, from, to), model) == Within(OfModel(candidates, model), from, to)
    decreases |candidates|
  {
    hide InRange;
    if candidates != [] {
      var head, rest := candidates[0], candidates[1..];
      WithinOfModel(rest, model, from, to);
      if InRange(head, from, to) {
        assert ([head] + Within(rest, from, to))[1..] == Within(rest, from, to);
      } else {
        assert [] + Within(rest, from, to) == Within(rest, from, to);
      }
      if head.open.modelId == model {
        assert ([head] + OfModel(rest, model))[1..] == OfModel(rest, model);
      } else {
        assert [] + OfModel(rest, model) == OfModel(rest, model);
      }
    }
  }

  lemma ClosedIsChain(state: State, model: string, rangeTo: int)
    requires ValidState(state)
    ensures Chain(OfModel(state.closed, model) + ClosedAtEnd(state, model, rangeTo), state.rangeFrom)
  {
    hide OfModel;
    assert Chain(OfModel(state.closed, model), state.rangeFrom);
  }

  /** The tail of a chain is a chain, and its members start no earlier than the head. */
  lemma ChainTail(head: seq<Candidate>, rest: seq<Candidate>, from: int)
    requires Chain(head + rest, from)
    ensures Chain(rest, from)
    ensures forall c, d | c in head && d in rest :: c.validUntil <= d.open.effectiveAt
    ensures forall c | c in head :: from <= c.open.effectiveAt < c.validUntil
  {
    var whole := head + rest;
    assert forall i :: 0 <= i < |rest| ==> rest[i] == whole[|head| + i];
    assert forall i :: 0 <= i < |head| ==> head[i] == whole[i];
  }

  lemma {:induction false} WithinChain(candidates: seq<Candidate>, from: int, to: int)
    requires Chain(candidates, from)
    ensures Chain(Within(candidates, from, to), from)
    ensures forall c | c in Within(candidates, from, to) :: c in candidates
    decreases |candidates|
  {
    if candidates != [] {
      assert candidates == [candidates[0]] + candidates[1..];
      ChainTail([candidates[0]], candidates[1..], from);
      WithinChain(candidates[1..], from, to);
      var rest := Within(candidates[1..], from, to);
      forall d | d in rest ensures candidates[0].validUntil <= d.open.effectiveAt {
        assert candidates[0] in [candidates[0]] && d in candidates[1..];
      }
    }
  }

  lemma {:induction false} InsertKeepsChain(c: Candidate, sorted: seq<Candidate>, model: string, rank: string -> int)
    requires c.open.modelId == model ==> forall d | d in OfModel(sorted, model) :: c.open.effectiveAt <= d.open.effectiveAt
    ensures OfModel(Insert(c, sorted, rank), model) == OfModel([c], model) + OfModel(sorted, model)
    decreases |sorted|
  {
    if sorted == [] || Before(c, sorted[0], rank) {
      OfModelConcat([c], sorted, model);
    } else {
      InsertKeepsChain(c, sorted[1..], model, rank);
      OfModelConcat([sorted[0]], Insert(c, sorted[1..], rank), model);
      OfModelConcat([sorted[0]], sorted[1..], model);
      assert sorted == [sorted[0]] + sorted[1..];
      assert OfModel(sorted, model) == OfModel([sorted[0]], model) + OfModel(sorted[1..], model);
      assert sorted[0].open.modelId == model ==> sorted[0] in OfModel(sorted, model);
    }
  }

  /** Sorting leaves one model's candidates as they are when they already form a chain. */
  lemma {:induction false} SortKeepsChains(candidates: seq<Candidate>, model: string, from: int, rank: string -> int)
    requires Chain(OfModel(candidates, model), from)
    ensures OfModel(Sort(candidates, rank), model) == OfModel(candidates, model)
    decreases |candidates|
  {
    hide Insert;
    if candidates != [] {
      var c, rest := candidates[0], OfModel(candidates[1..], model);
      OfModelConcat([c], candidates[1..], model);
      assert candidates == [c] + candidates[1..];
      ChainTail(OfModel([c], model), rest, from);
      SortKeepsChains(candidates[1..], model, from, rank);
      InsertKeepsChain(c, Sort(candidates[1..], rank), model, rank);
    }
  }

  ghost predicate IsSorted(candidates: seq<Candidate>, rank: string -> int) {
    forall i, j :: 0 <= i < j < |candidates| ==> Before(candidates[i], candidates[j], rank)
  }

  lemma {:induction false} InsertIsSorted(c: Candidate, sorted: seq<Candidate>, rank: string -> int)
    requires IsSorted(sorted, rank)
    ensures IsSorted(Insert(c, sorted, rank), rank)
    ensures forall d | d in Insert(c, sorted, rank) :: d == c || d in sorted
    decreases |sorted|
  {
    if sorted != [] && !Before(c, sorted[0], rank) {
      InsertIsSorted(c, sorted[1..], rank);
      var rest := Insert(c, sorted[1..], rank);
      forall j | 0 <= j < |rest| ensures Before(sorted[0], rest[j], rank) {
        assert rest[j] == c || rest[j] in sorted[1..];
      }
    }
  }

  lemma {:induction false} SortIsSorted(candidates: seq<Candidate>, rank: string -> int)
    ensures IsSorted(Sort(candidates, rank), rank)
    decreases |candidates|
  {
    if candidates != [] {
      SortIsSorted(candidates[1..], rank);
      InsertIsSorted(candidates[0], Sort(candidates[1..], rank), rank);
    }
  }

  // ------------------------------------------------- one model's own history

  /** The open candidate and the closed ones of one model after a list of snapshots. */
  ghost function History(rangeFrom: int, snapshots: seq<Snapshot>, model: string): (Option<OpenCandidate>, seq<Candidate>)
    requires forall k :: 0 <= k < |snapshots| ==> snapshots[k].ref.committedAt.Some?
  {
    if snapshots == [] then (None, [])
    else
      var last := snapshots[|snapshots| - 1];
      var (open, closed) := History(rangeFrom, snapshots[..|snapshots| - 1], model);
      var at := last.ref.committedAt.value;
      var (next, done) := StepModel(open, Resolve(last, model), model, Boundary(rangeFrom, at), last.ref, at);
      (next, closed + done)
  }

  ghost predicate KeysMatch(open: map<string, OpenCandidate>) {
    forall m | m in open :: open[m].modelId == m
  }

  ghost predicate Distinct(models: seq<string>) {
    forall i, j :: 0 <= i < j < |models| ==> models[i] != models[j]
  }

  /** Applying a snapshot steps each listed model once and leaves the others alone. */
  lemma {:induction false} ApplySteps(state: State, models: seq<string>, snapshot: Snapshot, boundary: int, at: int, m: string)
    requires KeysMatch(state.open) && Distinct(models)
    ensures var (open, closed) := ApplyModels(state.open, state.closed, models, snapshot, boundary, at);
            var (next, done) := StepModel(Lookup(state.open, m), Resolve(snapshot, m), m, boundary, snapshot.ref, at);
            && KeysMatch(open)
            && Lookup(open, m) == (if m in models then next else Lookup(state.open, m))
            && OfModel(closed, m) == OfModel(state.closed, m) + (if m in models then done else [])
    decreases |models|
  {
    hide OfModel, StepModel, Resolve;
    if models != [] {
      var last := |models| - 1;
      ApplySteps(state, models[..last], snapshot, boundary, at, m);
      ApplySteps(state, models[..last], snapshot, boundary, at, models[last]);
      assert models == models[..last] + [models[last]];
      var (open, closed) := ApplyModels(state.open, state.closed, models[..last], snapshot, boundary, at);
      var (next, done) := StepModel(Lookup(open, models[last]), Resolve(snapshot, models[last]), models[last], boundary, snapshot.ref, at);
      StepDoneIsOwn(Lookup(open, models[last]), Resolve(snapshot, models[last]), models[last], boundary, snapshot.ref, at, m);
      OfModelConcat(closed, done, m);
    }
  }

  lemma StepDoneIsOwn(previous: Option<OpenCandidate>, resolved: Option<Resolved>, model: string, boundary: int, ref: Ref, at: int, m: string)
    requires previous.Some? ==> previous.value.modelId == model
    ensures var (next, done) := StepModel(previous, resolved, model, boundary, ref, at);
            && OfModel(done, m) == (if m == model then done else [])
            && (next.Some? ==> next.value.modelId == model)
  {
    hide Unchanged;
  }

  // ---------------------------------------------------------------- whole runs

  ghost function Run(rangeFrom: int, models: seq<string>, snapshots: seq<Snapshot>): Result<State> {
    if snapshots == [] then Ok(CreateState(rangeFrom, models))
    else
      match Run(rangeFrom, models, snapshots[..|snapshots| - 1])
      case Err(error) => Err(error)
      case Ok(state) => Applied(state, snapshots[|snapshots| - 1])
  }

  /** A baseline at or before the start of the range, then strictly later snapshots. */
  ghost predicate Acceptable(rangeFrom: int, snapshots: seq<Snapshot>) {
    Chronological(snapshots) && (snapshots != [] ==> snapshots[0].ref.committedAt.value <= rangeFrom)
  }

  /** Exactly the acceptable lists are processed to the end. */
  lemma {:induction false} RunSucceedsIff(rangeFrom: int, models: seq<string>, snapshots: seq<Snapshot>)
    ensures Run(rangeFrom, models, snapshots).Ok? <==> Acceptable(rangeFrom, snapshots)
    ensures Run(rangeFrom, models, snapshots).Ok? ==>
      var state := Run(rangeFrom, models, snapshots).value;
      && state.rangeFrom == rangeFrom && state.models == Unique(models)
      && state.lastCommittedAt == if snapshots == [] then None else snapshots[|snapshots| - 1].ref.committedAt
    decreases |snapshots|
  {
    hide Unique, ApplyModels;
    if snapshots != [] {
      var last := |snapshots| - 1;
      var earlier := snapshots[..last];
      RunSucceedsIff(rangeFrom, models, earlier);
      assert forall k :: 0 <= k < last ==> earlier[k] == snapshots[k];
      assert earlier + [snapshots[last]] == snapshots;
      if Acceptable(rangeFrom, snapshots) {
        assert Acceptable(rangeFrom, earlier);
        assert last > 0 ==> snapshots[last - 1].ref.committedAt.value < snapshots[last].ref.committedAt.value;
      } else if Run(rangeFrom, models, snapshots).Ok? {
        AppendAcceptable(rangeFrom, earlier, snapshots[last]);
      }
    }
  }

  lemma AppendAcceptable(rangeFrom: int, earlier: seq<Snapshot>, last: Snapshot)
    requires Acceptable(rangeFrom, earlier) && last.ref.committedAt.Some?
    requires earlier == [] ==> last.ref.committedAt.value <= rangeFrom
    requires earlier != [] ==> earlier[|earlier| - 1].ref.committedAt.value < last.ref.committedAt.value
    ensures Acceptable(rangeFrom, earlier + [last])
  {
    var all := earlier + [last];
    forall i, j | 0 <= i < j < |all| ensures all[i].ref.committedAt.value < all[j].ref.committedAt.value {
      if j == |earlier| && i < |earlier| - 1 {
        assert earlier[i].ref.committedAt.value < earlier[|earlier| - 1].ref.committedAt.value;
      }
    }
  }

  /** Each listed model goes through its own history; other models are never touched. */
  lemma {:induction false} RunFollowsHistory(rangeFrom: int, models: seq<string>, snapshots: seq<Snapshot>, m: string)
    requires Acceptable(rangeFrom, snapshots)
    ensures Run(rangeFrom, models, snapshots).Ok?
    ensures var state := Run(rangeFrom, models, snapshots).value;
            var (open, closed) := if m in models then History(rangeFrom, snapshots, m) else (None, []);
            KeysMatch(state.open) && Lookup(state.open, m) == open && OfModel(state.closed, m) == closed
    decreases |snapshots|
  {
    RunSucceedsIff(rangeFrom, models, snapshots);
    if snapshots != [] {
      var last := |snapshots| - 1;
      var earlier := snapshots[..last];
      assert forall k :: 0 <= k < last ==> earlier[k] == snapshots[k];
      RunFollowsHistory(rangeFrom, models, earlier, m);
      RunSucceedsIff(rangeFrom, models, earlier);
      var state := Run(rangeFrom, models, earlier).value;
      var at := snapshots[last].ref.committedAt.value;
      hide ApplyModels, StepModel, OfModel, Unique;
      ApplySteps(state, state.models, snapshots[last], Boundary(rangeFrom, at), at, m);
    }
  }

  // -------------------------------------- the history against the naive rule

  ghost function QuoteIn(open: OpenCandidate): Quote { Quote(open.sourceModelId, Normalized(open.price)) }

  predicate Covers(c: Candidate, t: int) { c.open.effectiveAt <= t < c.validUntil }

  /** The quote of the candidate that covers `t`; the open one covers everything from its start. */
  ghost function Quoted(open: Option<OpenCandidate>, closed: seq<Candidate>, t: int): Option<Quote>
    decreases |closed|
  {
    if open.Some? && open.value.effectiveAt <= t then Some(QuoteIn(open.value))
    else if closed == [] then None
    else
      var last := closed[|closed| - 1];
      if Covers(last, t) then Some(QuoteIn(last.open)) else Quoted(None, closed[..|closed| - 1], t)
  }

  ghost predicate ValidHistory(open: Option<OpenCandidate>, closed: seq<Candidate>, rangeFrom: int, boundary: int) {
    && Chain(closed, rangeFrom)
    && (forall i :: 0 <= i < |closed| ==> closed[i].validUntil <= boundary)
    && (open.Some? ==>
          && rangeFrom <= open.value.effectiveAt <= boundary
          && forall i :: 0 <= i < |closed| ==> closed[i].validUntil <= open.value.effectiveAt)
  }

  ghost function LastAt(snapshots: seq<Snapshot>): int
    requires snapshots != [] && snapshots[|snapshots| - 1].ref.committedAt.Some?
  {
    snapshots[|snapshots| - 1].ref.committedAt.value
  }

  /** Before the boundary nothing changes; from it on, the new resolution is in force. */
  lemma StepQuotes(open: Option<OpenCandidate>, closed: seq<Candidate>, resolved: Option<Resolved>, model: string,
                   rangeFrom: int, before: int, boundary: int, ref: Ref, at: int, t: int)
    requires ValidHistory(open, closed, rangeFrom, before) && rangeFrom <= before <= boundary && rangeFrom <= t
    ensures var (next, done) := StepModel(open, resolved, model, boundary, ref, at);
            && ValidHistory(next, closed + done, rangeFrom, boundary)
            && (t >= boundary ==> Quoted(next, closed + done, t) == QuoteOf(resolved))
            && (t < boundary ==> Quoted(next, closed + done, t) == Quoted(open, closed, t))
  {
    if open.Some? && resolved.Some? && Unchanged(open.value, resolved.value) {
      SameQuote(Resolved(open.value.sourceModelId, open.value.price), resolved.value);
      assert closed + [] == closed;
      hide Quoted;
      if t >= boundary { OpenIsQuoted(open, closed, t); }
    } else {
      hide Quoted, Unchanged, CloseCandidate, ValidHistory;
      var done := if open.Some? then CloseCandidate(open.value, boundary) else [];
      ClosedKeepsQuotes(open, closed, rangeFrom, before, boundary, t);
      var next := if resolved.Some? then Some(Opened(model, resolved.value, boundary, ref, at)) else None;
      OpenAtBoundary(next, closed + done, rangeFrom, boundary, t);
    }
  }

  lemma OpenIsQuoted(open: Option<OpenCandidate>, closed: seq<Candidate>, t: int)
    requires open.Some? && open.value.effectiveAt <= t
    ensures Quoted(open, closed, t) == Some(QuoteIn(open.value))
  {
  }

  /** Closing the open candidate at a later boundary changes no quote before the boundary. */
  lemma ClosedKeepsQuotes(open: Option<OpenCandidate>, closed: seq<Candidate>, rangeFrom: int, before: int, boundary: int, t: int)
    requires ValidHistory(open, closed, rangeFrom, before) && rangeFrom <= before <= boundary
    ensures var done := if open.Some? then CloseCandidate(open.value, boundary) else [];
            && ValidHistory(None, closed + done, rangeFrom, boundary)
            && (t < boundary ==> Quoted(None, closed + done, t) == Quoted(open, closed, t))
  {
    hide QuoteIn;
    var done := if open.Some? then CloseCandidate(open.value, boundary) else [];
    if done == [] {
      assert closed + done == closed;
    } else {
      assert (closed + done)[..|closed|] == closed;
    }
  }

  /** Opening a candidate at the boundary changes no quote before it and settles every quote from it on. */
  lemma OpenAtBoundary(next: Option<OpenCandidate>, closed: seq<Candidate>, rangeFrom: int, boundary: int, t: int)
    requires ValidHistory(None, closed, rangeFrom, boundary) && rangeFrom <= boundary
    requires next.Some? ==> next.value.effectiveAt == boundary
    ensures ValidHistory(next, closed, rangeFrom, boundary)
    ensures t >= boundary ==> Quoted(next, closed, t) == if next.Some? then Some(QuoteIn(next.value)) else None
    ensures t < boundary ==> Quoted(next, closed, t) == Quoted(None, closed, t)
  {
    hide Chain, QuoteIn;
    if t >= boundary { NothingCovers(closed, boundary, t); }
    else { NotYetOpen(next, closed, t); }
  }

  lemma {:induction false} NotYetOpen(next: Option<OpenCandidate>, closed: seq<Candidate>, t: int)
    requires next.Some? ==> t < next.value.effectiveAt
    ensures Quoted(next, closed, t) == Quoted(None, closed, t)
    decreases |closed|
  {
    if closed != [] { NotYetOpen(next, closed[..|closed| - 1], t); }
  }

  lemma {:induction false} NothingCovers(closed: seq<Candidate>, end: int, t: int)
    requires forall i :: 0 <= i < |closed| ==> closed[i].validUntil <= end
    requires end <= t
    ensures Quoted(None, closed, t) == None
    decreases |closed|
  {
    if closed != [] {
      NothingCovers(closed[..|closed| - 1], end, t);
    }
  }

  /** After any acceptable list the history quotes, at every time of the range, what the naive rule says. */
  lemma {:induction false} HistoryQuotesInForce(rangeFrom: int, snapshots: seq<Snapshot>, model: string, t: int)
    requires Acceptable(rangeFrom, snapshots) && snapshots != [] && rangeFrom <= t
    ensures var (open, closed) := History(rangeFrom, snapshots, model);
            && ValidHistory(open, closed, rangeFrom, Boundary(rangeFrom, LastAt(snapshots)))
            && Quoted(open, closed, t) == InForce(snapshots, model, t)
    decreases |snapshots|
  {
    var last := |snapshots| - 1;
    var earlier := snapshots[..last];
    assert forall k :: 0 <= k < last ==> earlier[k] == snapshots[k];
    var before := if last == 0 then rangeFrom else Boundary(rangeFrom, LastAt(earlier));
    if last > 0 {
      HistoryQuotesInForce(rangeFrom, earlier, model, t);
      assert earlier[last - 1].ref.committedAt.value < snapshots[last].ref.committedAt.value;
    }
    var (open, closed) := History(rangeFrom, earlier, model);
    var at := LastAt(snapshots);
    hide StepModel, Quoted, ValidHistory;
    if last == 0 { EmptyHistory(rangeFrom, t); }
    StepQuotes(open, closed, Resolve(snapshots[last], model), model, rangeFrom, before, Boundary(rangeFrom, at), snapshots[last].ref, at, t);
  }

  lemma EmptyHistory(rangeFrom: int, t: int)
    ensures ValidHistory(None, [], rangeFrom, rangeFrom) && Quoted(None, [], t) == None
  {
  }

  // ------------------------------------------------------------- main results

  lemma {:induction false} QuotedIsCovering(candidates: seq<Candidate>, from: int, i: nat, t: int)
    requires Chain(candidates, from) && i < |candidates| && Covers(candidates[i], t)
    ensures Quoted(None, candidates, t) == Some(QuoteIn(candidates[i].open))
    decreases |candidates|
  {
    var last := |candidates| - 1;
    if i < last {
      assert candidates[i].validUntil <= candidates[last].open.effectiveAt;
      QuotedIsCovering(candidates[..last], from, i, t);
    }
  }

  lemma {:induction false} QuotedByCovering(candidates: seq<Candidate>, t: int) returns (i: nat)
    requires Quoted(None, candidates, t).Some?
    ensures i < |candidates| && Covers(candidates[i], t) && Quoted(None, candidates, t) == Some(QuoteIn(candidates[i].open))
    decreases |candidates|
  {
    var last := |candidates| - 1;
    if Covers(candidates[last], t) { i := last; } else { i := QuotedByCovering(candidates[..last], t); }
  }

  lemma {:induction false} WithinKeeps(candidates: seq<Candidate>, from: int, to: int, c: Candidate)
    ensures c in Within(candidates, from, to) <==> c in candidates && InRange(c, from, to)
    decreases |candidates|
  {
    if candidates != [] {
      WithinKeeps(candidates[1..], from, to, c);
    }
  }

  /** A closed candidate of the model starts inside the range and ends after it. */
  ghost predicate Crosses(closed: seq<Candidate>, rangeTo: int) {
    exists c | c in closed :: c.open.effectiveAt < rangeTo < c.validUntil
  }

  ghost function AtEnd(open: Option<OpenCandidate>, rangeTo: int): seq<Candidate> {
    if open.Some? then CloseCandidate(open.value, rangeTo) else []
  }

  lemma {:induction false} NothingQuoted(candidates: seq<Candidate>, t: int)
    requires forall c | c in candidates :: !Covers(c, t)
    ensures Quoted(None, candidates, t) == None
    decreases |candidates|
  {
    if candidates != [] {
      assert candidates[|candidates| - 1] in candidates;
      NothingQuoted(candidates[..|candidates| - 1], t);
    }
  }

  /** Filtering loses nothing at `t` when what covers `t` passes the filter. */
  lemma WithinQuotes(all: seq<Candidate>, from: int, to: int, t: int)
    requires Chain(all, from)
    requires forall c | c in all :: Covers(c, t) ==> InRange(c, from, to)
    ensures Quoted(None, Within(all, from, to), t) == Quoted(None, all, t)
  {
    var kept := Within(all, from, to);
    WithinChain(all, from, to);
    if Quoted(None, all, t).Some? {
      hide Within;
      var i := QuotedByCovering(all, t);
      WithinKeeps(all, from, to, all[i]);
      var j :| 0 <= j < |kept| && kept[j] == all[i];
      QuotedIsCovering(kept, from, j, t);
    } else {
      hide Within;
      forall c | c in kept ensures !Covers(c, t) {
        WithinKeeps(all, from, to, c);
        var i :| 0 <= i < |all| && all[i] == c;
        if Covers(c, t) { QuotedIsCovering(all, from, i, t); }
      }
      NothingQuoted(kept, t);
    }
  }

  lemma AtEndQuotes(open: Option<OpenCandidate>, closed: seq<Candidate>, rangeTo: int, t: int)
    requires t < rangeTo
    ensures Quoted(None, closed + AtEnd(open, rangeTo), t) == Quoted(open, closed, t)
  {
    var all := closed + AtEnd(open, rangeTo);
    if AtEnd(open, rangeTo) == [] {
      assert all == closed;
    } else {
      assert all[..|closed|] == closed;
    }
  }

  /** Without a crossing candidate the kept ones quote the same as the history. */
  lemma KeptQuotes(open: Option<OpenCandidate>, closed: seq<Candidate>, rangeFrom: int, boundary: int, rangeTo: int, t: int)
    requires ValidHistory(open, closed, rangeFrom, boundary) && rangeFrom <= t < rangeTo
    requires !Crosses(closed, rangeTo)
    ensures Quoted(None, Within(closed + AtEnd(open, rangeTo), rangeFrom, rangeTo), t) == Quoted(open, closed, t)
  {
    var all := closed + AtEnd(open, rangeTo);
    EndIsChain(open, closed, rangeFrom, boundary, rangeTo);
    AtEndQuotes(open, closed, rangeTo, t);
    forall c | c in all ensures Covers(c, t) ==> InRange(c, rangeFrom, rangeTo) {
      hide Quoted, Within, Chain;
      assert c in closed || c in AtEnd(open, rangeTo);
    }
    hide Quoted, Within, Chain, Crosses, Covers, InRange;
    WithinQuotes(all, rangeFrom, rangeTo, t);
  }

  lemma EndIsChain(open: Option<OpenCandidate>, closed: seq<Candidate>, rangeFrom: int, boundary: int, rangeTo: int)
    requires ValidHistory(open, closed, rangeFrom, boundary)
    ensures Chain(closed + AtEnd(open, rangeTo), rangeFrom)
  {
  }

  /** A crossing candidate is dropped, so the last instant it covered inside the range has no quote. */
  lemma CrossingIsLost(open: Option<OpenCandidate>, closed: seq<Candidate>, rangeFrom: int, boundary: int, rangeTo: int)
    requires ValidHistory(open, closed, rangeFrom, boundary)
    requires Crosses(closed, rangeTo)
    ensures rangeFrom <= rangeTo - 1
    ensures Quoted(None, Within(closed + AtEnd(open, rangeTo), rangeFrom, rangeTo), rangeTo - 1) == None
    ensures Quoted(open, closed, rangeTo - 1).Some?
  {
    var all := closed + AtEnd(open, rangeTo);
    var kept := Within(all, rangeFrom, rangeTo);
    var c :| c in closed && c.open.effectiveAt < rangeTo < c.validUntil;
    var i :| 0 <= i < |closed| && closed[i] == c;
    assert all == closed && AtEnd(open, rangeTo) == [];
    QuotedIsCovering(closed, rangeFrom, i, rangeTo - 1);
    forall d | d in kept ensures !Covers(d, rangeTo - 1) {
      WithinKeeps(all, rangeFrom, rangeTo, d);
      var k :| 0 <= k < |closed| && closed[k] == d;
      assert i < k || k < i;
    }
    NothingQuoted(kept, rangeTo - 1);
  }

  /** What the closed range says of a model at an instant. */
  ghost function QuotedAt(state: State, model: string, rangeTo: int, t: int): Option<Quote> {
    Quoted(None, Intervals(state, model, rangeTo), t)
  }

  /**
   * For every acceptable list and every end of the range: the closed intervals of a model follow one
   * another without overlap, and they quote what the naive rule says at every instant of the range,
   * exactly when no candidate was closed across the end.
   */
  lemma IntervalsFollowNaiveRuleIff(rangeFrom: int, models: seq<string>, snapshots: seq<Snapshot>, model: string, rangeTo: int)
    requires Acceptable(rangeFrom, snapshots) && snapshots != [] && model in models && rangeFrom <= rangeTo
    ensures Run(rangeFrom, models, snapshots).Ok?
    ensures var state := Run(rangeFrom, models, snapshots).value;
            && Chain(Intervals(state, model, rangeTo), rangeFrom)
            && ((forall t | rangeFrom <= t < rangeTo :: QuotedAt(state, model, rangeTo, t) == InForce(snapshots, model, t))
                <==> !Crosses(OfModel(state.closed, model), rangeTo))
  {
    hide Chain, Crosses, OfModel, Within, Run;
    RunFollowsHistory(rangeFrom, models, snapshots, model);
    RunSucceedsIff(rangeFrom, models, snapshots);
    var state := Run(rangeFrom, models, snapshots).value;
    var (open, closed) := History(rangeFrom, snapshots, model);
    var boundary := Boundary(rangeFrom, LastAt(snapshots));
    HistoryQuotesInForce(rangeFrom, snapshots, model, rangeFrom);
    assert ClosedAtEnd(state, model, rangeTo) == AtEnd(open, rangeTo);
    EndKeepsChain(open, closed, rangeFrom, boundary, rangeTo);
    if Crosses(closed, rangeTo) {
      CrossingIsLost(open, closed, rangeFrom, boundary, rangeTo);
      HistoryQuotesInForce(rangeFrom, snapshots, model, rangeTo - 1);
      assert QuotedAt(state, model, rangeTo, rangeTo - 1) != InForce(snapshots, model, rangeTo - 1);
    } else {
      forall t | rangeFrom <= t < rangeTo ensures QuotedAt(state, model, rangeTo, t) == InForce(snapshots, model, t) {
        HistoryQuotesInForce(rangeFrom, snapshots, model, t);
        KeptQuotes(open, closed, rangeFrom, boundary, rangeTo, t);
      }
    }
  }

  lemma EndKeepsChain(open: Option<OpenCandidate>, closed: seq<Candidate>, rangeFrom: int, boundary: int, rangeTo: int)
    requires ValidHistory(open, closed, rangeFrom, boundary)
    ensures Chain(Within(closed + AtEnd(open, rangeTo), rangeFrom, rangeTo), rangeFrom)
  {
    EndIsChain(open, closed, rangeFrom, boundary, rangeTo);
    WithinChain(closed + AtEnd(open, rangeTo), rangeFrom, rangeTo);
  }

  /** A price from before the range, taken back after it, is in force all over the range and in no interval. */
  lemma PriceAcrossRangeIsLost(price: Price)
    ensures var a, b := Snapshot(Ref("a", Some(50)), map["m" := Resolved("m", price)]), Snapshot(Ref("b", Some(2000)), map[]);
            && Acceptable(100, [a, b]) && Run(100, ["m"], [a, b]).Ok?
            && Intervals(Run(100, ["m"], [a, b]).value, "m", 1000) == []
            && forall t | 100 <= t < 1000 :: InForce([a, b], "m", t) == Some(Quote("m", Normalized(price)))
  {
    var a, b := Snapshot(Ref("a", Some(50)), map["m" := Resolved("m", price)]), Snapshot(Ref("b", Some(2000)), map[]);
    hide Normalized;
    var open := Opened("m", Resolved("m", price), 100, a.ref, 50);
    OneClosed(100, a, b, "m", Resolved("m", price));
    hide History, StepModel;
    RunFollowsHistory(100, ["m"], [a, b], "m");
    RunSucceedsIff(100, ["m"], [a, b]);
    hide Run;
    NothingKept(Run(100, ["m"], [a, b]).value, "m", Candidate(open, 2000), 1000);
  }

  lemma OneClosed(rangeFrom: int, a: Snapshot, b: Snapshot, model: string, resolved: Resolved)
    requires Resolve(a, model) == Some(resolved) && Resolve(b, model) == None
    requires a.ref.committedAt.Some? && a.ref.committedAt.value <= rangeFrom && b.ref.committedAt.Some? && b.ref.committedAt.value > rangeFrom
    ensures History(rangeFrom, [a, b], model) ==
      (None, [Candidate(Opened(model, resolved, rangeFrom, a.ref, a.ref.committedAt.value), b.ref.committedAt.value)])
  {
    HistoryNext(rangeFrom, [], a, model);
    HistoryNext(rangeFrom, [a], b, model);
    hide History, Resolve;
    assert [] + [a] == [a] && [a] + [b] == [a, b];
    var none: seq<Candidate> := [];
    var closed := CloseCandidate(Opened(model, resolved, rangeFrom, a.ref, a.ref.committedAt.value), b.ref.committedAt.value);
    assert none + none == none && none + closed == closed;
  }

  lemma HistoryNext(rangeFrom: int, earlier: seq<Snapshot>, last: Snapshot, model: string)
    requires (forall k :: 0 <= k < |earlier| ==> earlier[k].ref.committedAt.Some?) && last.ref.committedAt.Some?
    ensures var (open, closed) := History(rangeFrom, earlier, model);
            var at := last.ref.committedAt.value;
            var (next, done) := StepModel(open, Resolve(last, model), model, Boundary(rangeFrom, at), last.ref, at);
            History(rangeFrom, earlier + [last], model) == (next, closed + done)
    ensures earlier == [] ==> History(rangeFrom, earlier, model) == (None, [])
  {
    assert (earlier + [last])[..|earlier|] == earlier;
  }

  lemma NothingKept(state: State, model: string, crossing: Candidate, rangeTo: int)
    requires OfModel(state.closed, model) == [crossing] && model !in state.open && crossing.validUntil > rangeTo
    ensures Intervals(state, model, rangeTo) == []
  {
    assert OfModel(state.closed, model) + ClosedAtEnd(state, model, rangeTo) == [crossing];
    hide OfModel;
    assert [crossing][1..] == [] && Within([], state.rangeFrom, rangeTo) == [];
  }

  /** With every commit at or before the end of the range the intervals always follow the naive rule. */
  lemma IntervalsFollowNaiveRule(rangeFrom: int, models: seq<string>, snapshots: seq<Snapshot>, model: string, rangeTo: int, t: int)
    requires Acceptable(rangeFrom, snapshots) && snapshots != [] && model in models
    requires LastAt(snapshots) <= rangeTo && rangeFrom <= t < rangeTo
    ensures Run(rangeFrom, models, snapshots).Ok?
    ensures QuotedAt(Run(rangeFrom, models, snapshots).value, model, rangeTo, t) == InForce(snapshots, model, t)
  {
    hide Run, InForce, Intervals, OfModel;
    RunFollowsHistory(rangeFrom, models, snapshots, model);
    HistoryQuotesInForce(rangeFrom, snapshots, model, t);
    IntervalsFollowNaiveRuleIff(rangeFrom, models, snapshots, model, rangeTo);
  }

  /** States built by applying snapshots are the ones `ClosePricingIntervals` accepts. */
  lemma RunIsValid(rangeFrom: int, models: seq<string>, snapshots: seq<Snapshot>)
    requires Acceptable(rangeFrom, snapshots)
    ensures Run(rangeFrom, models, snapshots).Ok? && ValidState(Run(rangeFrom, models, snapshots).value)
  {
    RunSucceedsIff(rangeFrom, models, snapshots);
    var state := Run(rangeFrom, models, snapshots).value;
    forall m: string
      ensures KeysMatch(state.open) && Chain(OfModel(state.closed, m), rangeFrom)
      ensures m in state.open ==> rangeFrom <= state.open[m].effectiveAt
      ensures forall i :: m in state.open && 0 <= i < |OfModel(state.closed, m)| ==>
        OfModel(state.closed, m)[i].validUntil <= state.open[m].effectiveAt
    {
      hide Run;
      RunFollowsHistory(rangeFrom, models, snapshots, m);
      if m in models && snapshots != [] {
        HistoryQuotesInForce(rangeFrom, snapshots, m, rangeFrom);
      }
    }
  }
}

/**
 * The batched candidate table against the interval algorithm: the same rows, except that a model first priced
 * after the range start has its first row extended back to it.
 */
module PricingTable {
  import opened Prelude
  import opened PricingModel
  import Intervals = PricingIntervals
  import opened PricingCandidates

  /** Where a model's row starts; its first one with the range if it is extended. */
  function StartOf(index: nat, open: Intervals.OpenCandidate, from: int, extended: bool): int {
    if index == 0 && extended then from else open.effectiveAt
  }

  ghost function RowOf(open: Intervals.OpenCandidate, validUntil: Option<int>): Row {
    Row(Intervals.QuoteIn(open), validUntil, open.sha, open.committedAt)
  }

  /** The closed candidates as rows. */
  ghost function Rows(closed: seq<Intervals.Candidate>, from: int, extended: bool): map<int, Row>
    decreases |closed|
  {
    if closed == [] then map[]
    else
      var last := |closed| - 1;
      Rows(closed[..last], from, extended)
      [StartOf(last, closed[last].open, from, extended) := RowOf(closed[last].open, Some(closed[last].validUntil))]
  }

  ghost function AllRows(open: Option<Intervals.OpenCandidate>, closed: seq<Intervals.Candidate>, from: int, extended: bool): map<int, Row> {
    match open
    case None => Rows(closed, from, extended)
    case Some(c) => Rows(closed, from, extended)[StartOf(|closed|, c, from, extended) := RowOf(c, None)]
  }

  /** The work on a model holds exactly these candidates. */
  ghost predicate Matches(work: Work, open: Option<Intervals.OpenCandidate>, closed: seq<Intervals.Candidate>, from: int, extended: bool) {
    && work.rows == AllRows(open, closed, from, extended)
    && work.open == if open.None? then None
                    else Some(OpenRow(StartOf(|closed|, open.value, from, extended), Intervals.QuoteIn(open.value)))
  }

  /** Both algorithms see the same change of price. */
  lemma SameChange(previous: Intervals.OpenCandidate, row: OpenRow, resolved: Resolved)
    requires row.quote == Intervals.QuoteIn(previous)
    ensures Unchanged(row, resolved) <==> Intervals.Unchanged(previous, resolved)
  {
    SameQuote(Resolved(previous.sourceModelId, previous.price), resolved);
    SameQuote(Resolved(row.quote.sourceModelId, row.quote.price), resolved);
  }

  lemma {:induction false} RowsBefore(closed: seq<Intervals.Candidate>, from: int, extended: bool, end: int)
    requires Intervals.Chain(closed, from) && forall i :: 0 <= i < |closed| ==> closed[i].validUntil <= end
    ensures forall e | e in Rows(closed, from, extended) :: e < end
    decreases |closed|
  {
    if closed != [] { RowsBefore(closed[..|closed| - 1], from, extended, end); }
  }

  /** The first row, if it is extended, has an instant of its own. */
  ghost predicate Apart(open: Option<Intervals.OpenCandidate>, closed: seq<Intervals.Candidate>, extended: bool, boundary: int) {
    open.Some? && extended && closed == [] ==> open.value.effectiveAt < boundary
  }

  lemma CloseOneMatches(work: Work, c: Intervals.OpenCandidate, closed: seq<Intervals.Candidate>, from: int, extended: bool, boundary: int)
    requires Matches(work, Some(c), closed, from, extended) && from <= c.effectiveAt <= boundary
    requires forall e | e in Rows(closed, from, extended) :: e < c.effectiveAt
    requires extended && closed == [] ==> c.effectiveAt < boundary
    ensures Matches(Close(work, boundary), None, closed + Intervals.CloseCandidate(c, boundary), from, extended)
  {
    hide Intervals.QuoteIn;
    var start, rows := StartOf(|closed|, c, from, extended), Rows(closed, from, extended);
    if boundary <= c.effectiveAt {
      hide Rows;
      assert closed + [] == closed;
      assert rows[start := RowOf(c, None)] - {start} == rows;
    } else {
      assert (closed + [Intervals.Candidate(c, boundary)])[..|closed|] == closed;
    }
  }

  lemma CloseMatches(work: Work, open: Option<Intervals.OpenCandidate>, closed: seq<Intervals.Candidate>, from: int, extended: bool,
                     before: int, boundary: int)
    requires Matches(work, open, closed, from, extended) && Intervals.ValidHistory(open, closed, from, before)
    requires from <= before <= boundary && Apart(open, closed, extended, boundary)
    ensures var done := if open.Some? then Intervals.CloseCandidate(open.value, boundary) else [];
            Matches(Close(work, boundary), None, closed + done, from, extended)
  {
    if open.Some? {
      RowsBefore(closed, from, extended, open.value.effectiveAt);
      hide Matches, Close, Rows, Intervals.Chain;
      CloseOneMatches(work, open.value, closed, from, extended, boundary);
    } else {
      assert closed + [] == closed;
    }
  }

  lemma OpenMatches(work: Work, closed: seq<Intervals.Candidate>, next: Intervals.OpenCandidate, resolved: Resolved,
                    from: int, extended: bool, effectiveAt: int, sha: string, at: int)
    requires Matches(work, None, closed, from, extended)
    requires next == Intervals.OpenCandidate(next.modelId, resolved.sourceModelId, next.effectiveAt, resolved.price, sha, at)
    requires effectiveAt == StartOf(|closed|, next, from, extended)
    ensures Matches(Open(work, resolved, effectiveAt, sha, at), Some(next), closed, from, extended)
  {
  }

  /** A model counts as seen from its first price on. */
  ghost predicate SeenFits(work: Work, open: Option<Intervals.OpenCandidate>, closed: seq<Intervals.Candidate>, extended: bool) {
    && (!work.seen ==> open.None? && closed == [])
    && (work.seen && extended ==> open.Some? || closed != [])
  }

  /** A snapshot inside the range does the same in both algorithms. */
  lemma StepMatches(work: Work, open: Option<Intervals.OpenCandidate>, closed: seq<Intervals.Candidate>, resolved: Option<Resolved>,
                    model: string, range: Range, extended: bool, before: int, boundary: int, ref: Ref, at: int)
    requires Matches(work, open, closed, range.from, extended) && SeenFits(work, open, closed, extended)
    requires Intervals.ValidHistory(open, closed, range.from, before)
    requires range.from <= before <= boundary < range.to && Apart(open, closed, extended, boundary)
    requires !work.seen && resolved.Some? ==> (extended <==> range.from < boundary)
    ensures var (next, done) := Intervals.StepModel(open, resolved, model, boundary, ref, at);
            Matches(Step(work, resolved, range, boundary, ref.sha, at), next, closed + done, range.from, extended)
  {
    if open.Some? && resolved.Some? {
      SameChange(open.value, work.open.value, resolved.value);
    }
    hide Unchanged, Intervals.Unchanged, AllRows;
    if open.Some? && resolved.Some? && Intervals.Unchanged(open.value, resolved.value) {
      assert closed + [] == closed;
    } else {
      var done := if open.Some? then Intervals.CloseCandidate(open.value, boundary) else [];
      CloseMatches(work, open, closed, range.from, extended, before, boundary);
      if resolved.Some? {
        var next := Intervals.Opened(model, resolved.value, boundary, ref, at);
        var effectiveAt := if work.seen then boundary else range.from;
        assert effectiveAt == StartOf(|closed + done|, next, range.from, extended);
        hide Close, Open, Matches;
        OpenMatches(Close(work, boundary), closed + done, next, resolved.value, range.from, extended, effectiveAt, ref.sha, at);
      }
    }
  }

  // ------------------------------------------------- candidates from the range end on

  /** The candidates that start before the range end: the table opens no other rows. */
  function Early(closed: seq<Intervals.Candidate>, to: int): seq<Intervals.Candidate>
    decreases |closed|
  {
    if closed == [] then []
    else Early(closed[..|closed| - 1], to) + if closed[|closed| - 1].open.effectiveAt < to then [closed[|closed| - 1]] else []
  }

  function EarlyOpen(open: Option<Intervals.OpenCandidate>, to: int): Option<Intervals.OpenCandidate> {
    if open.Some? && open.value.effectiveAt < to then open else None
  }

  lemma {:induction false} AllEarly(closed: seq<Intervals.Candidate>, to: int)
    requires forall i :: 0 <= i < |closed| ==> closed[i].open.effectiveAt < to
    ensures Early(closed, to) == closed
    decreases |closed|
  {
    if closed != [] { AllEarly(closed[..|closed| - 1], to); }
  }

  lemma EarlyNext(closed: seq<Intervals.Candidate>, done: seq<Intervals.Candidate>, to: int)
    requires |done| <= 1
    ensures Early(closed + done, to) == Early(closed, to) + if done != [] && done[0].open.effectiveAt < to then done else []
  {
    if done == [] {
      assert closed + done == closed;
    } else {
      assert (closed + done)[..|closed|] == closed;
    }
  }

  /** The history before the range end is early as a whole. */
  lemma HistoryIsEarly(open: Option<Intervals.OpenCandidate>, closed: seq<Intervals.Candidate>, from: int, before: int, to: int)
    requires Intervals.ValidHistory(open, closed, from, before) && before < to
    ensures Early(closed, to) == closed && EarlyOpen(open, to) == open
  {
    AllEarly(closed, to);
  }

  lemma ChainPrefix(closed: seq<Intervals.Candidate>, from: int)
    requires Intervals.Chain(closed, from) && closed != []
    ensures var last := |closed| - 1;
            && Intervals.Chain(closed[..last], from) && from <= closed[last].open.effectiveAt < closed[last].validUntil
            && forall i :: 0 <= i < last ==> closed[i].validUntil <= closed[last].open.effectiveAt
  {
  }

  lemma ChainNext(chain: seq<Intervals.Candidate>, c: Intervals.Candidate, from: int)
    requires Intervals.Chain(chain, from) && from <= c.open.effectiveAt < c.validUntil
    requires forall i :: 0 <= i < |chain| ==> chain[i].validUntil <= c.open.effectiveAt
    ensures Intervals.Chain(chain + [c], from)
  {
  }

  lemma {:induction false} EarlyIsChain(closed: seq<Intervals.Candidate>, from: int, to: int, end: int)
    requires Intervals.Chain(closed, from) && forall i :: 0 <= i < |closed| ==> closed[i].validUntil <= end
    ensures Intervals.Chain(Early(closed, to), from)
    ensures forall i :: 0 <= i < |Early(closed, to)| ==> Early(closed, to)[i].validUntil <= end
    decreases |closed|
  {
    if closed != [] {
      var last := |closed| - 1;
      ChainPrefix(closed, from);
      hide Intervals.Chain;
      EarlyIsChain(closed[..last], from, to, closed[last].open.effectiveAt);
      var earlier := Early(closed[..last], to);
      assert Early(closed, to) == earlier + if closed[last].open.effectiveAt < to then [closed[last]] else [];
      hide Early;
      ChainNext(earlier, closed[last], from);
    }
  }

  /** From the range end on the table only closes what was open before. */
  lemma LateStepCloses(work: Work, resolved: Option<Resolved>, range: Range, boundary: int, sha: string, at: int)
    requires range.to <= boundary && (resolved.Some? ==> work.seen)
    ensures Step(work, resolved, range, boundary, sha, at) ==
      if work.open.Some? && resolved.Some? && Unchanged(work.open.value, resolved.value) then work else Close(work, boundary)
  {
  }

  lemma LateStepMatches(work: Work, open: Option<Intervals.OpenCandidate>, closed: seq<Intervals.Candidate>, resolved: Option<Resolved>,
                        model: string, range: Range, extended: bool, before: int, boundary: int, ref: Ref, at: int)
    requires Matches(work, EarlyOpen(open, range.to), Early(closed, range.to), range.from, extended)
    requires Intervals.ValidHistory(open, closed, range.from, before)
    requires range.from <= before <= boundary && range.from < range.to <= boundary && (resolved.Some? ==> work.seen)
    ensures var (next, done) := Intervals.StepModel(open, resolved, model, boundary, ref, at);
            Matches(Step(work, resolved, range, boundary, ref.sha, at), EarlyOpen(next, range.to), Early(closed + done, range.to), range.from, extended)
  {
    var early, earlyOpen := Early(closed, range.to), EarlyOpen(open, range.to);
    LateStepCloses(work, resolved, range, boundary, ref.sha, at);
    LateStepIsEarly(open, closed, resolved, model, range, boundary, ref, at);
    EarlyHistoryIsValid(open, closed, range, before);
    ClosesNothing(work, earlyOpen, early, range.from, extended, boundary);
    hide Step, Early, Intervals.StepModel, Unchanged, Intervals.Unchanged, Matches, Close, Intervals.ValidHistory;
    if earlyOpen.Some? && resolved.Some? {
      SameChange(open.value, work.open.value, resolved.value);
    }
    assert early + [] == early;
    CloseMatches(work, earlyOpen, early, range.from, extended, before, boundary);
  }

  lemma ClosesNothing(work: Work, open: Option<Intervals.OpenCandidate>, closed: seq<Intervals.Candidate>, from: int, extended: bool, boundary: int)
    requires Matches(work, open, closed, from, extended)
    ensures if open.Some? then work.open.Some? && work.open.value.quote == Intervals.QuoteIn(open.value)
            else work.open.None? && Close(work, boundary) == work
  {
    hide AllRows;
  }

  /** What such a step does to the early candidates. */
  lemma LateStepIsEarly(open: Option<Intervals.OpenCandidate>, closed: seq<Intervals.Candidate>, resolved: Option<Resolved>,
                        model: string, range: Range, boundary: int, ref: Ref, at: int)
    requires range.to <= boundary
    ensures var (next, done) := Intervals.StepModel(open, resolved, model, boundary, ref, at);
            var early, earlyOpen := Early(closed, range.to), EarlyOpen(open, range.to);
            if open.Some? && resolved.Some? && Intervals.Unchanged(open.value, resolved.value) then
              EarlyOpen(next, range.to) == earlyOpen && Early(closed + done, range.to) == early
            else
              && EarlyOpen(next, range.to) == None
              && Early(closed + done, range.to) == early + if earlyOpen.Some? then Intervals.CloseCandidate(earlyOpen.value, boundary) else []
  {
    hide Intervals.Unchanged;
    EarlyNext(closed, if open.Some? then Intervals.CloseCandidate(open.value, boundary) else [], range.to);
    EarlyNext(closed, [], range.to);
    hide Early;
  }

  lemma EarlyHistoryIsValid(open: Option<Intervals.OpenCandidate>, closed: seq<Intervals.Candidate>, range: Range, before: int)
    requires Intervals.ValidHistory(open, closed, range.from, before)
    ensures Intervals.ValidHistory(EarlyOpen(open, range.to), Early(closed, range.to), range.from, before)
  {
    EarlyIsChain(closed, range.from, range.to, before);
    if open.Some? { EarlyIsChain(closed, range.from, range.to, open.value.effectiveAt); }
    hide Early, Intervals.Chain;
  }

  // ----------------------------------------------------------------- whole lists

  lemma AcceptableIsInSequence(snapshots: seq<Snapshot>, range: Range)
    requires Intervals.Acceptable(range.from, snapshots)
    ensures InSequence(snapshots, range)
    ensures forall k | 0 < k < |snapshots| :: range.from < BoundaryOf(snapshots[k - 1], range) ==>
              BoundaryOf(snapshots[k - 1], range) < BoundaryOf(snapshots[k], range)
  {
  }

  lemma AcceptablePrefix(snapshots: seq<Snapshot>, n: nat, from: int)
    requires Intervals.Acceptable(from, snapshots) && n <= |snapshots|
    ensures Intervals.Acceptable(from, snapshots[..n])
  {
  }

  /** A list's history, and the boundary it has come to. */
  lemma HistoryIsValid(snapshots: seq<Snapshot>, model: string, range: Range)
    requires Intervals.Acceptable(range.from, snapshots)
    ensures var (open, closed) := Intervals.History(range.from, snapshots, model);
            Intervals.ValidHistory(open, closed, range.from, LastBoundary(snapshots, range))
  {
    if snapshots == [] {
      Intervals.EmptyHistory(range.from, range.from);
    } else {
      Intervals.HistoryQuotesInForce(range.from, snapshots, model, range.from);
    }
  }

  /** No candidate starts before the model's first price comes into force. */
  lemma {:induction false} HistoryStarts(snapshots: seq<Snapshot>, model: string, range: Range, start: int)
    requires Timed(snapshots)
    requires forall k | 0 <= k < |snapshots| && model in snapshots[k].pricing :: start <= BoundaryOf(snapshots[k], range)
    ensures var (open, closed) := Intervals.History(range.from, snapshots, model);
            && (FirstPriced(snapshots, model).None? ==> open.None? && closed == [])
            && (open.Some? ==> start <= open.value.effectiveAt)
            && forall c | c in closed :: start <= c.open.effectiveAt
    decreases |snapshots|
  {
    if snapshots != [] {
      HistoryStarts(snapshots[..|snapshots| - 1], model, range, start);
      hide Intervals.Unchanged;
    }
  }

  /** A candidate that started after the range start is never dropped. */
  lemma {:induction false} HistoryGoesOn(snapshots: seq<Snapshot>, model: string, range: Range)
    requires Intervals.Acceptable(range.from, snapshots) && InSequence(snapshots, range)
    requires PricedLater(snapshots, model, range)
    ensures var (open, closed) := Intervals.History(range.from, snapshots, model);
            open.Some? || closed != []
    decreases |snapshots|
  {
    var last := |snapshots| - 1;
    var earlier := snapshots[..last];
    AcceptablePrefix(snapshots, last, range.from);
    SequencePrefix(snapshots, last, range);
    FirstPricedIsTimed(earlier, model, range);
    var first := FirstPriced(earlier, model);
    if first.Some? {
      HistoryGoesOn(earlier, model, range);
      HistoryIsValid(earlier, model, range);
      AcceptableIsInSequence(snapshots, range);
      var i :| 0 <= i < last && earlier[i] == first.value;
      assert BoundaryOf(snapshots[i], range) <= BoundaryOf(snapshots[last - 1], range) < BoundaryOf(snapshots[last], range);
    }
    hide Intervals.Unchanged, Intervals.Chain, InSequence, Intervals.Acceptable;
  }

  ghost predicate PricedBefore(snapshots: seq<Snapshot>, model: string, range: Range) {
    var first := FirstPriced(snapshots, model);
    first.Some? ==> first.value.ref.committedAt.Some? && BoundaryOf(first.value, range) < range.to
  }

  /** Unless its first price is only in force after the range, the table holds a model's early candidates. */
  lemma {:induction false} ApplyMatches(snapshots: seq<Snapshot>, model: string, range: Range, extended: bool)
    requires InSequence(snapshots, range) && Intervals.Acceptable(range.from, snapshots) && range.from < range.to
    requires PricedBefore(snapshots, model, range)
    requires FirstPriced(snapshots, model).Some? ==> (extended <==> PricedLater(snapshots, model, range))
    ensures var (open, closed) := Intervals.History(range.from, snapshots, model);
            Matches(Apply(NOTHING, snapshots, model, range), EarlyOpen(open, range.to), Early(closed, range.to), range.from, extended)
    decreases |snapshots|
  {
    if snapshots != [] {
      var last := |snapshots| - 1;
      var earlier := snapshots[..last];
      AcceptablePrefix(snapshots, last, range.from);
      SequencePrefix(snapshots, last, range);
      FirstPricedIsTimed(earlier, model, range);
      hide Matches, Step, Intervals.StepModel, Early, EarlyOpen, Intervals.ValidHistory;
      ApplyMatches(earlier, model, range, extended);
      HistoryIsValid(earlier, model, range);
      NextMatches(snapshots, model, range, extended);
    }
  }

  /** The last snapshot of a list. */
  lemma NextMatches(snapshots: seq<Snapshot>, model: string, range: Range, extended: bool)
    requires InSequence(snapshots, range) && Intervals.Acceptable(range.from, snapshots) && range.from < range.to && snapshots != []
    requires PricedBefore(snapshots, model, range) && Timed(snapshots[..|snapshots| - 1])
    requires FirstPriced(snapshots, model).Some? ==> (extended <==> PricedLater(snapshots, model, range))
    requires var earlier := snapshots[..|snapshots| - 1];
             var (open, closed) := Intervals.History(range.from, earlier, model);
             Matches(Apply(NOTHING, earlier, model, range), EarlyOpen(open, range.to), Early(closed, range.to), range.from, extended)
    ensures var last := snapshots[|snapshots| - 1];
            var work := Apply(NOTHING, snapshots[..|snapshots| - 1], model, range);
            var (open, closed) := Intervals.History(range.from, snapshots[..|snapshots| - 1], model);
            var (next, done) := Intervals.StepModel(open, Resolve(last, model), model, BoundaryOf(last, range), last.ref, last.ref.committedAt.value);
            Matches(StepSnapshot(work, last, model, range), EarlyOpen(next, range.to), Early(closed + done, range.to), range.from, extended)
  {
    var last := |snapshots| - 1;
    var earlier, snapshot := snapshots[..last], snapshots[last];
    var at := snapshot.ref.committedAt.value;
    var before, boundary := LastBoundary(earlier, range), BoundaryOf(snapshot, range);
    var (open, closed) := Intervals.History(range.from, earlier, model);
    var work := Apply(NOTHING, earlier, model, range);
    NextFits(snapshots, model, range, extended);
    hide InSequence, Apply, Intervals.History, Matches, Step, Intervals.Chain, SeenFits, Apart, PricedLater, FirstPriced, Intervals.Acceptable;
    if boundary < range.to {
      HistoryIsEarly(open, closed, range.from, before, range.to);
      StepMatches(work, open, closed, Resolve(snapshot, model), model, range, extended, before, boundary, snapshot.ref, at);
      NextIsEarly(open, closed, Resolve(snapshot, model), model, range, before, boundary, snapshot.ref, at);
    } else {
      LateStepMatches(work, open, closed, Resolve(snapshot, model), model, range, extended, before, boundary, snapshot.ref, at);
    }
  }

  /** Where the last snapshot of a list finds a model. */
  lemma NextFits(snapshots: seq<Snapshot>, model: string, range: Range, extended: bool)
    requires InSequence(snapshots, range) && Intervals.Acceptable(range.from, snapshots) && range.from < range.to && snapshots != []
    requires PricedBefore(snapshots, model, range) && Timed(snapshots[..|snapshots| - 1])
    requires FirstPriced(snapshots, model).Some? ==> (extended <==> PricedLater(snapshots, model, range))
    ensures var last, earlier := snapshots[|snapshots| - 1], snapshots[..|snapshots| - 1];
            var work, (open, closed) := Apply(NOTHING, earlier, model, range), Intervals.History(range.from, earlier, model);
            var before, boundary := LastBoundary(earlier, range), BoundaryOf(last, range);
            && range.from <= before <= boundary && Intervals.ValidHistory(open, closed, range.from, before)
            && SeenFits(work, open, closed, extended) && Apart(open, closed, extended, boundary)
            && (!work.seen && model in last.pricing ==> boundary < range.to && (extended <==> range.from < boundary))
  {
    var last := |snapshots| - 1;
    var earlier := snapshots[..last];
    AcceptablePrefix(snapshots, last, range.from);
    AcceptableIsInSequence(snapshots, range);
    SequencePrefix(snapshots, last, range);
    HistoryIsValid(earlier, model, range);
    HistoryStarts(earlier, model, range, range.from);
    if PricedLater(earlier, model, range) { HistoryGoesOn(earlier, model, range); }
    ApplyQuotes(earlier, model, range, range.from);
    FirstPricedIsTimed(earlier, model, range);
    var first := FirstPriced(earlier, model);
    hide Apply, Intervals.History, Quotes, NormalOpen, Recovered, Intervals.Chain, Intervals.Acceptable;
    if first.Some? {
      var i :| 0 <= i < last && earlier[i] == first.value;
      assert BoundaryOf(snapshots[i], range) <= BoundaryOf(snapshots[last - 1], range);
    }
  }

  lemma NextIsEarly(open: Option<Intervals.OpenCandidate>, closed: seq<Intervals.Candidate>, resolved: Option<Resolved>,
                    model: string, range: Range, before: int, boundary: int, ref: Ref, at: int)
    requires Intervals.ValidHistory(open, closed, range.from, before) && before <= boundary < range.to
    ensures var (next, done) := Intervals.StepModel(open, resolved, model, boundary, ref, at);
            Early(closed + done, range.to) == closed + done && EarlyOpen(next, range.to) == next
  {
    hide Intervals.Unchanged;
    var (next, done) := Intervals.StepModel(open, resolved, model, boundary, ref, at);
    AllEarly(closed + done, range.to);
  }

  // ------------------------------------------------------------- the end of the range

  lemma {:induction false} RowsAreClosed(closed: seq<Intervals.Candidate>, from: int, extended: bool)
    ensures forall e | e in Rows(closed, from, extended) :: Rows(closed, from, extended)[e].validUntil.Some?
    decreases |closed|
  {
    if closed != [] {
      RowsAreClosed(closed[..|closed| - 1], from, extended);
    }
  }

  /** Closing the range closes the same candidate in both algorithms. */
  lemma FinishMatches(open: Option<Intervals.OpenCandidate>, closed: seq<Intervals.Candidate>, from: int, extended: bool, to: int)
    requires from < to && (open.Some? ==> open.value.effectiveAt < to)
    ensures Finish(AllRows(open, closed, from, extended), to) == Rows(closed + Intervals.AtEnd(open, to), from, extended)
  {
    RowsAreClosed(closed, from, extended);
    var all := closed + Intervals.AtEnd(open, to);
    if open.Some? {
      assert all[..|closed|] == closed;
    } else {
      assert all == closed;
    }
  }

  lemma {:induction false} WithinNext(candidates: seq<Intervals.Candidate>, c: Intervals.Candidate, from: int, to: int)
    ensures Intervals.Within(candidates + [c], from, to) ==
      Intervals.Within(candidates, from, to) + if Intervals.InRange(c, from, to) then [c] else []
    decreases |candidates|
  {
    if candidates == [] {
      assert [] + [c] == [c];
      assert Intervals.Within([], from, to) == [];
      assert [c][1..] == [];
    } else {
      var rest := candidates[1..];
      var head := if Intervals.InRange(candidates[0], from, to) then [candidates[0]] else [];
      var tail := if Intervals.InRange(c, from, to) then [c] else [];
      assert (candidates + [c])[1..] == rest + [c];
      WithinNext(rest, c, from, to);
      hide Intervals.InRange;
      assert Intervals.Within(candidates + [c], from, to) == head + (Intervals.Within(rest, from, to) + tail);
      hide Intervals.Within;
      assert head + (Intervals.Within(rest, from, to) + tail) == (head + Intervals.Within(rest, from, to)) + tail;
    }
  }

  /** Where none crosses the range end, the closed candidates inside the range are the early ones. */
  lemma {:induction false} EarlyIsWithin(closed: seq<Intervals.Candidate>, from: int, to: int)
    requires Intervals.Chain(closed, from) && !Intervals.Crosses(closed, to)
    ensures Intervals.Within(closed, from, to) == Early(closed, to)
    decreases |closed|
  {
    if closed != [] {
      var last := |closed| - 1;
      ChainPrefix(closed, from);
      hide Intervals.Chain, Intervals.Within;
      assert closed == closed[..last] + [closed[last]];
      assert closed[last] in closed && forall c | c in closed[..last] :: c in closed;
      WithinNext(closed[..last], closed[last], from, to);
      EarlyIsWithin(closed[..last], from, to);
    }
  }

  lemma KeptIsEarly(open: Option<Intervals.OpenCandidate>, closed: seq<Intervals.Candidate>, from: int, boundary: int, to: int)
    requires Intervals.ValidHistory(open, closed, from, boundary) && !Intervals.Crosses(closed, to) && from < to
    ensures Intervals.Within(closed + Intervals.AtEnd(open, to), from, to) == Early(closed, to) + Intervals.AtEnd(EarlyOpen(open, to), to)
  {
    EarlyIsWithin(closed, from, to);
    hide Early, Intervals.Crosses, Intervals.Chain, Intervals.Within;
    assert closed + [] == closed && Early(closed, to) + [] == Early(closed, to);
    if open.Some? && open.value.effectiveAt < to {
      var c := Intervals.Candidate(open.value, to);
      WithinNext(closed, c, from, to);
      assert Intervals.InRange(c, from, to);
    }
  }

  /** A crossing candidate is the last early one. */
  lemma {:induction false} CrossingIsLast(closed: seq<Intervals.Candidate>, from: int, to: int, i: nat)
    requires Intervals.Chain(closed, from) && i < |closed| && closed[i].open.effectiveAt < to < closed[i].validUntil
    ensures Early(closed, to) == Early(closed[..i], to) + [closed[i]]
    decreases |closed|
  {
    var last := |closed| - 1;
    if i < last {
      assert closed[i].validUntil <= closed[last].open.effectiveAt;
      assert closed[..last][..i] == closed[..i];
      CrossingIsLast(closed[..last], from, to, i);
    }
  }

  lemma {:induction false} RowsEndBy(closed: seq<Intervals.Candidate>, from: int, extended: bool, to: int)
    requires forall c | c in closed :: c.validUntil <= to
    ensures forall e | e in Rows(closed, from, extended) ::
              var until := Rows(closed, from, extended)[e].validUntil; until.Some? && until.value <= to
    decreases |closed|
  {
    if closed != [] {
      assert closed[|closed| - 1] in closed && forall c | c in closed[..|closed| - 1] :: c in closed;
      RowsEndBy(closed[..|closed| - 1], from, extended, to);
    }
  }

  /** A row that ends after the range is not among the intervals. */
  lemma CrossingDiffers(open: Option<Intervals.OpenCandidate>, closed: seq<Intervals.Candidate>, from: int, boundary: int, extended: bool, to: int)
    requires Intervals.ValidHistory(open, closed, from, boundary) && Intervals.Crosses(closed, to) && from < to
    ensures Rows(Early(closed, to) + Intervals.AtEnd(EarlyOpen(open, to), to), from, extended) !=
      Rows(Intervals.Within(closed + Intervals.AtEnd(open, to), from, to), from, extended)
  {
    var c :| c in closed && c.open.effectiveAt < to < c.validUntil;
    var i :| 0 <= i < |closed| && closed[i] == c;
    CrossingIsLast(closed, from, to, i);
    var kept := Intervals.Within(closed + Intervals.AtEnd(open, to), from, to);
    forall d | d in kept ensures d.validUntil <= to {
      Intervals.WithinKeeps(closed + Intervals.AtEnd(open, to), from, to, d);
    }
    RowsEndBy(kept, from, extended, to);
    var before := Early(closed[..i], to);
    assert EarlyOpen(open, to) == None;
    hide Intervals.Within, Intervals.Chain, Early, Rows, EarlyOpen;
    assert Early(closed, to) + [] == before + [c];
    LastRow(before, c, from, extended);
  }

  lemma LastRow(before: seq<Intervals.Candidate>, c: Intervals.Candidate, from: int, extended: bool)
    ensures var start, rows := StartOf(|before|, c.open, from, extended), Rows(before + [c], from, extended);
            start in rows && rows[start].validUntil == Some(c.validUntil)
  {
    assert (before + [c])[..|before|] == before;
  }

  /** A model first priced at the range end or later has a row and no interval. */
  lemma LateFirstPriceDiffers(snapshots: seq<Snapshot>, model: string, range: Range)
    requires Intervals.Acceptable(range.from, snapshots) && InSequence(snapshots, range) && range.from < range.to
    requires !PricedBefore(snapshots, model, range)
    ensures var (open, closed) := Intervals.History(range.from, snapshots, model);
            Intervals.Within(closed + Intervals.AtEnd(open, range.to), range.from, range.to) == []
    ensures Finish(Apply(NOTHING, snapshots, model, range).rows, range.to) != map[]
  {
    FirstPricedIsTimed(snapshots, model, range);
    HistoryStarts(snapshots, model, range, range.to);
    HistoryIsValid(snapshots, model, range);
    ApplyQuotes(snapshots, model, range, range.from);
    var rows := Apply(NOTHING, snapshots, model, range).rows;
    FinishQuotes(rows, range.to, range.from, Recovered(snapshots, model, range, range.from));
    EmptyQuotes(range.from, Recovered(snapshots, model, range, range.from));
    var (open, closed) := Intervals.History(range.from, snapshots, model);
    hide Apply, Intervals.History, InSequence, Quotes, Finish;
    assert Intervals.AtEnd(open, range.to) == [] && closed + [] == closed;
    var kept := Intervals.Within(closed, range.from, range.to);
    if kept != [] { Intervals.WithinKeeps(closed, range.from, range.to, kept[0]); }
  }

  // ------------------------------------------------------------------ main results

  /**
   * For every list the interval algorithm accepts: the table after the last batch holds exactly its rows, row by
   * row with price, source commit, start and end, and with the first row extended back to the range start if the
   * model is first priced later, exactly when no candidate was closed across the range end and the model's first
   * price, if it has one, is in force before the range end.
   */
  lemma TableIsExtendedIntervalsIff(snapshots: seq<Snapshot>, models: seq<string>, model: string, range: Range)
    requires Intervals.Acceptable(range.from, snapshots) && snapshots != [] && model in models && range.from < range.to
    ensures Intervals.Run(range.from, models, snapshots).Ok?
    ensures var state := Intervals.Run(range.from, models, snapshots).value;
            Saved(map[], snapshots, model, range, true)
              == Rows(Intervals.Intervals(state, model, range.to), range.from, PricedLater(snapshots, model, range))
            <==> !Intervals.Crosses(Intervals.OfModel(state.closed, model), range.to) && PricedBefore(snapshots, model, range)
  {
    assert Load(map[]) == NOTHING;
    AcceptableIsInSequence(snapshots, range);
    Intervals.RunFollowsHistory(range.from, models, snapshots, model);
    Intervals.RunSucceedsIff(range.from, models, snapshots);
    HistoryIsValid(snapshots, model, range);
    var state := Intervals.Run(range.from, models, snapshots).value;
    var (open, closed) := Intervals.History(range.from, snapshots, model);
    assert Intervals.ClosedAtEnd(state, model, range.to) == Intervals.AtEnd(open, range.to);
    var extended := PricedLater(snapshots, model, range);
    hide Apply, InSequence, Intervals.Run, Intervals.History, Intervals.Within, Finish, AllRows, Intervals.OfModel, Intervals.Chain;
    hide Intervals.Crosses, Intervals.AtEnd, Early, PricedLater, Intervals.ValidHistory;
    if PricedBefore(snapshots, model, range) {
      ApplyMatches(snapshots, model, range, extended);
      FinishMatches(EarlyOpen(open, range.to), Early(closed, range.to), range.from, extended, range.to);
      if Intervals.Crosses(closed, range.to) {
        CrossingDiffers(open, closed, range.from, LastBoundary(snapshots, range), extended, range.to);
      } else {
        KeptIsEarly(open, closed, range.from, LastBoundary(snapshots, range), range.to);
      }
    } else {
      LateFirstPriceDiffers(snapshots, model, range);
    }
  }

  /** With every commit at or before the range end, as the source lists them, only the first price decides. */
  lemma ListedTableIsExtendedIntervalsIff(snapshots: seq<Snapshot>, models: seq<string>, model: string, range: Range)
    requires Intervals.Acceptable(range.from, snapshots) && snapshots != [] && model in models && range.from < range.to
    requires LastBoundary(snapshots, range) <= range.to
    ensures Intervals.Run(range.from, models, snapshots).Ok?
    ensures var state := Intervals.Run(range.from, models, snapshots).value;
            Saved(map[], snapshots, model, range, true)
              == Rows(Intervals.Intervals(state, model, range.to), range.from, PricedLater(snapshots, model, range))
            <==> PricedBefore(snapshots, model, range)
  {
    TableIsExtendedIntervalsIff(snapshots, models, model, range);
    Intervals.RunFollowsHistory(range.from, models, snapshots, model);
    HistoryIsValid(snapshots, model, range);
    hide Intervals.Run, Intervals.History, Intervals.Within, Intervals.OfModel, Saved, Rows, Intervals.Intervals;
  }

  /** A model first priced at the very end of the range gets a row over the whole range, and no interval. */
  lemma PriceAtRangeEndIsExtended(price: Price)
    ensures var range := Range(100, 1000);
            var a, b := Snapshot(Ref("a", Some(50)), map[]), Snapshot(Ref("b", Some(1000)), map["m" := Resolved("m", price)]);
            && Intervals.Acceptable(100, [a, b]) && LastBoundary([a, b], range) == 1000
            && Saved(map[], [a, b], "m", range, true) == map[100 := Row(Quote("m", Normalized(price)), Some(1000), "b", 1000)]
            && Intervals.Run(100, ["m"], [a, b]).Ok?
            && Intervals.Intervals(Intervals.Run(100, ["m"], [a, b]).value, "m", 1000) == []
  {
    var range := Range(100, 1000);
    var a, b := Snapshot(Ref("a", Some(50)), map[]), Snapshot(Ref("b", Some(1000)), map["m" := Resolved("m", price)]);
    hide Normalized;
    RangeEndRow(a, b, price);
    assert Intervals.Acceptable(100, [a, b]);
    AcceptableIsInSequence([a, b], range);
    Intervals.RunFollowsHistory(100, ["m"], [a, b], "m");
    Intervals.RunSucceedsIff(100, ["m"], [a, b]);
    assert [a, b][..1] == [a] && [a][..0] == [];
    assert FirstPriced([], "m") == None && FirstPriced([a], "m") == None && FirstPriced([a, b], "m") == Some(b);
    hide Intervals.Within, Intervals.Run, Intervals.History, Intervals.OfModel, Saved, InSequence, Intervals.Acceptable, FirstPriced;
    LateFirstPriceDiffers([a, b], "m", range);
    var state := Intervals.Run(100, ["m"], [a, b]).value;
    var (open, closed) := Intervals.History(100, [a, b], "m");
    assert Intervals.ClosedAtEnd(state, "m", 1000) == Intervals.AtEnd(open, 1000);
  }

  lemma RangeEndRow(a: Snapshot, b: Snapshot, price: Price)
    requires a == Snapshot(Ref("a", Some(50)), map[]) && b == Snapshot(Ref("b", Some(1000)), map["m" := Resolved("m", price)])
    ensures Saved(map[], [a, b], "m", Range(100, 1000), true) == map[100 := Row(Quote("m", Normalized(price)), Some(1000), "b", 1000)]
  {
    hide Normalized;
    assert Load(map[]) == NOTHING;
    ApplyPair(NOTHING, a, b, "m", Range(100, 1000));
    assert StepSnapshot(NOTHING, a, "m", Range(100, 1000)) == NOTHING;
  }
}

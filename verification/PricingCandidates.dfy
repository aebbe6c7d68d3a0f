/**
 * The candidate rows of the historical pricing job: snapshots are saved in batches, and every batch starts
 * from what the table holds (apps/web/lib/pricing-history.ts).
 */
module PricingCandidates {
  import opened Prelude
  import opened PricingModel

  /** The range of a job; the table demands a non-empty one. */
  datatype Range = Range(from: int, to: int)

  /** A candidate row; its start time is its key. An open row has no end yet. */
  datatype Row = Row(quote: Quote, validUntil: Option<int>, sha: string, committedAt: int)

  /** The copy of a model's open row kept in memory during a batch. */
  datatype OpenRow = OpenRow(effectiveAt: int, quote: Quote)

  /** One model during a batch: its rows, its open row in memory, and whether it counts as seen. */
  datatype Work = Work(rows: map<int, Row>, open: Option<OpenRow>, seen: bool)

  predicate Unchanged(previous: OpenRow, resolved: Resolved) {
    previous.quote.sourceModelId == resolved.sourceModelId && SamePricing(previous.quote.price, resolved.price)
  }

  /** The row of `effectiveAt` closed at the boundary, or deleted when the boundary is not after it. */
  function CloseRow(rows: map<int, Row>, effectiveAt: int, boundary: int): map<int, Row> {
    if boundary <= effectiveAt then rows - {effectiveAt}
    else if effectiveAt in rows then rows[effectiveAt := rows[effectiveAt].(validUntil := Some(boundary))]
    else rows
  }

  function Close(work: Work, boundary: int): Work {
    match work.open
    case None => work
    case Some(open) => work.(rows := CloseRow(work.rows, open.effectiveAt, boundary), open := None)
  }

  /** A new open row; a row with the same start is overwritten and opened again. */
  function Open(work: Work, resolved: Resolved, effectiveAt: int, sha: string, committedAt: int): Work {
    var quote := Quote(resolved.sourceModelId, Normalized(resolved.price));
    Work(work.rows[effectiveAt := Row(quote, None, sha, committedAt)], Some(OpenRow(effectiveAt, quote)), true)
  }

  /** What one snapshot, in force from `boundary`, does to one model. */
  function Step(work: Work, resolved: Option<Resolved>, range: Range, boundary: int, sha: string, committedAt: int): Work {
    if work.open.Some? && resolved.Some? && Unchanged(work.open.value, resolved.value) then work
    else
      var effectiveAt := if work.seen then boundary else range.from;
      if resolved.None? || effectiveAt >= range.to then Close(work, boundary)
      else Open(Close(work, boundary), resolved.value, effectiveAt, sha, committedAt)
  }

  function StepSnapshot(work: Work, snapshot: Snapshot, model: string, range: Range): Work
    requires snapshot.ref.committedAt.Some?
  {
    var at := snapshot.ref.committedAt.value;
    Step(work, Resolve(snapshot, model), range, Boundary(range.from, at), snapshot.ref.sha, at)
  }

  ghost predicate Timed(snapshots: seq<Snapshot>) {
    forall k :: 0 <= k < |snapshots| ==> snapshots[k].ref.committedAt.Some?
  }

  ghost function Apply(work: Work, snapshots: seq<Snapshot>, model: string, range: Range): Work
    requires Timed(snapshots)
    decreases |snapshots|
  {
    if snapshots == [] then work
    else StepSnapshot(Apply(work, snapshots[..|snapshots| - 1], model, range), snapshots[|snapshots| - 1], model, range)
  }

  predicate IsOpen(rows: map<int, Row>, effectiveAt: int) { effectiveAt in rows && rows[effectiveAt].validUntil.None? }

  /** No two rows of the model are open. */
  ghost predicate OneOpen(rows: map<int, Row>) {
    forall a, b :: IsOpen(rows, a) && IsOpen(rows, b) ==> a == b
  }

  /** The open row as the batch reads it back from the table. */
  ghost function LoadOpen(rows: map<int, Row>): Option<OpenRow> {
    if e :| IsOpen(rows, e) then Some(OpenRow(e, rows[e].quote)) else None
  }

  ghost function Load(rows: map<int, Row>): Work { Work(rows, LoadOpen(rows), rows != map[]) }

  /** The end of the last batch: open rows that start inside the range end with it, other open rows go. */
  function Finish(rows: map<int, Row>, to: int): map<int, Row> {
    map e | e in rows && (rows[e].validUntil.Some? || e < to) ::
      if rows[e].validUntil.None? then rows[e].(validUntil := Some(to)) else rows[e]
  }

  /** What saving a batch does to one model's rows. */
  ghost function Saved(rows: map<int, Row>, batch: seq<Snapshot>, model: string, range: Range, finished: bool): map<int, Row>
    requires Timed(batch)
  {
    var after := Apply(Load(rows), batch, model, range).rows;
    if finished then Finish(after, range.to) else after
  }

  // ------------------------------------------------- memory against the table

  /** The open row in memory is the one open row of the table. */
  ghost predicate Consistent(work: Work) {
    && (work.open.Some? ==>
          && IsOpen(work.rows, work.open.value.effectiveAt)
          && work.rows[work.open.value.effectiveAt].quote == work.open.value.quote)
    && forall e :: IsOpen(work.rows, e) ==> work.open.Some? && work.open.value.effectiveAt == e
  }

  lemma LoadIsConsistent(rows: map<int, Row>)
    requires OneOpen(rows)
    ensures Consistent(Load(rows))
  {
  }

  lemma ConsistentIsOneOpen(work: Work)
    requires Consistent(work)
    ensures OneOpen(work.rows)
  {
  }

  lemma CloseKeepsConsistent(work: Work, boundary: int)
    requires Consistent(work)
    ensures Consistent(Close(work, boundary)) && Close(work, boundary).open.None?
  {
    var closed := Close(work, boundary);
    forall e ensures !IsOpen(closed.rows, e) {
      assert IsOpen(closed.rows, e) ==> IsOpen(work.rows, e);
    }
  }

  lemma OpenKeepsConsistent(work: Work, resolved: Resolved, effectiveAt: int, sha: string, at: int)
    requires Consistent(work) && work.open.None?
    ensures Consistent(Open(work, resolved, effectiveAt, sha, at))
  {
    hide Normalized;
    var after := Open(work, resolved, effectiveAt, sha, at);
    forall e | IsOpen(after.rows, e) ensures e == effectiveAt {
      assert e != effectiveAt ==> IsOpen(work.rows, e);
    }
  }

  lemma StepKeepsConsistent(work: Work, resolved: Option<Resolved>, range: Range, boundary: int, sha: string, at: int)
    requires Consistent(work)
    ensures Consistent(Step(work, resolved, range, boundary, sha, at))
  {
    hide Unchanged, Close, Open, Consistent;
    CloseKeepsConsistent(work, boundary);
    if resolved.Some? {
      OpenKeepsConsistent(Close(work, boundary), resolved.value, if work.seen then boundary else range.from, sha, at);
    }
  }

  /** Whatever the snapshots, memory and table agree on the open row throughout a batch. */
  lemma {:induction false} ApplyKeepsConsistent(work: Work, snapshots: seq<Snapshot>, model: string, range: Range)
    requires Consistent(work) && Timed(snapshots)
    ensures Consistent(Apply(work, snapshots, model, range))
    decreases |snapshots|
  {
    hide Consistent, Step;
    if snapshots != [] {
      var last := |snapshots| - 1;
      ApplyKeepsConsistent(work, snapshots[..last], model, range);
      var at := snapshots[last].ref.committedAt.value;
      StepKeepsConsistent(Apply(work, snapshots[..last], model, range), Resolve(snapshots[last], model), range,
                          Boundary(range.from, at), snapshots[last].ref.sha, at);
    }
  }

  /** Reading a batch's state back from the table loses nothing but the sight of models without rows. */
  lemma ReloadIsIdentityIff(work: Work)
    requires Consistent(work)
    ensures Load(work.rows) == work <==> (work.seen <==> work.rows != map[])
  {
    if work.open.Some? {
      assert IsOpen(work.rows, work.open.value.effectiveAt);
    }
  }

  /** Saving keeps at most one open row for the model, and leaves none once the last batch is in. */
  lemma SavedKeepsOneOpen(rows: map<int, Row>, batch: seq<Snapshot>, model: string, range: Range, finished: bool)
    requires OneOpen(rows) && Timed(batch)
    ensures OneOpen(Saved(rows, batch, model, range, finished))
    ensures finished ==> forall e :: !IsOpen(Saved(rows, batch, model, range, finished), e)
  {
    hide Apply;
    LoadIsConsistent(rows);
    ApplyKeepsConsistent(Load(rows), batch, model, range);
    ConsistentIsOneOpen(Apply(Load(rows), batch, model, range));
  }

  // --------------------------------------------------- boundaries in sequence

  function BoundaryOf(snapshot: Snapshot, range: Range): int
    requires snapshot.ref.committedAt.Some?
  {
    Boundary(range.from, snapshot.ref.committedAt.value)
  }

  /** Each snapshot comes into force no earlier than the one before. */
  ghost predicate InSequence(snapshots: seq<Snapshot>, range: Range) {
    && Timed(snapshots)
    && forall i, j :: 0 <= i < j < |snapshots| ==> BoundaryOf(snapshots[i], range) <= BoundaryOf(snapshots[j], range)
  }

  /** The rows of a model are not empty, do not overlap and lie between the range start and `boundary`. */
  ghost predicate Ordered(rows: map<int, Row>, from: int, boundary: int) {
    && (forall e | e in rows :: from <= e <= boundary)
    && (forall e | e in rows && rows[e].validUntil.Some? :: e < rows[e].validUntil.value <= boundary)
    && (forall a, b | a in rows && b in rows && a < b :: rows[a].validUntil.Some? && rows[a].validUntil.value <= b)
  }

  ghost predicate Sound(work: Work, from: int, boundary: int) {
    Consistent(work) && Ordered(work.rows, from, boundary) && (work.rows != map[] ==> work.seen)
  }

  lemma CloseLastRow(rows: map<int, Row>, e: int, row: Row, from: int, before: int, boundary: int)
    requires Ordered(rows, from, before) && e in rows && rows[e].validUntil.None? && before <= boundary && e < boundary
    requires row.validUntil == Some(boundary)
    ensures Ordered(rows[e := row], from, boundary)
  {
  }

  /** The open row is closed at the boundary, or deleted if it starts there, and every row left ends by then. */
  lemma CloseKeepsOrdered(work: Work, from: int, before: int, boundary: int)
    requires Consistent(work) && Ordered(work.rows, from, before) && from <= before <= boundary
    ensures Ordered(Close(work, boundary).rows, from, boundary)
    ensures forall e | e in Close(work, boundary).rows :: e < boundary && Close(work, boundary).rows[e].validUntil.Some?
  {
    CloseKeepsConsistent(work, boundary);
    var closed := Close(work, boundary).rows;
    if work.open.Some? {
      var e := work.open.value.effectiveAt;
      assert IsOpen(work.rows, e);
      if e < boundary {
        var row := work.rows[e].(validUntil := Some(boundary));
        assert closed == work.rows[e := row];
        hide Close, CloseRow, Consistent, IsOpen;
        CloseLastRow(work.rows, e, row, from, before, boundary);
      }
    }
    forall e | e in closed ensures e < boundary && closed[e].validUntil.Some? {
      assert !IsOpen(closed, e);
    }
  }

  lemma OpenKeepsOrdered(work: Work, resolved: Resolved, effectiveAt: int, sha: string, at: int, from: int, boundary: int)
    requires Ordered(work.rows, from, boundary) && from <= boundary
    requires effectiveAt == boundary || (effectiveAt == from && work.rows == map[])
    requires forall e | e in work.rows :: e < boundary && work.rows[e].validUntil.Some?
    ensures Ordered(Open(work, resolved, effectiveAt, sha, at).rows, from, boundary)
  {
    hide Normalized;
  }

  lemma StepKeepsSound(work: Work, resolved: Option<Resolved>, range: Range, before: int, boundary: int, sha: string, at: int)
    requires Sound(work, range.from, before) && range.from <= before <= boundary
    ensures Sound(Step(work, resolved, range, boundary, sha, at), range.from, boundary)
  {
    StepKeepsConsistent(work, resolved, range, boundary, sha, at);
    CloseKeepsConsistent(work, boundary);
    CloseKeepsOrdered(work, range.from, before, boundary);
    var effectiveAt := if work.seen then boundary else range.from;
    if resolved.Some? && effectiveAt < range.to {
      var closed := Close(work, boundary);
      assert !work.seen ==> work.rows == map[] && closed.rows == map[];
      OpenKeepsOrdered(closed, resolved.value, effectiveAt, sha, at, range.from, boundary);
    }
  }

  /** The boundary reached after the snapshots, when `before` was reached before them. */
  ghost function LastFrom(before: int, snapshots: seq<Snapshot>, range: Range): int
    requires Timed(snapshots)
  {
    if snapshots == [] then before else BoundaryOf(snapshots[|snapshots| - 1], range)
  }

  ghost function LastBoundary(snapshots: seq<Snapshot>, range: Range): int
    requires Timed(snapshots)
  {
    LastFrom(range.from, snapshots, range)
  }

  ghost const NOTHING: Work := Work(map[], None, false)

  lemma SequencePrefix(snapshots: seq<Snapshot>, n: nat, range: Range)
    requires InSequence(snapshots, range) && n <= |snapshots|
    ensures InSequence(snapshots[..n], range) && InSequence(snapshots[n..], range)
    ensures range.from <= LastBoundary(snapshots[..n], range)
    ensures forall k | n <= k < |snapshots| :: LastBoundary(snapshots[..n], range) <= BoundaryOf(snapshots[k], range)
  {
  }

  /** Whatever the cut and the ties, memory and rows stay sound. */
  lemma {:induction false} ApplyKeepsSound(work: Work, before: int, snapshots: seq<Snapshot>, model: string, range: Range)
    requires Sound(work, range.from, before) && InSequence(snapshots, range) && range.from <= before
    requires forall k | 0 <= k < |snapshots| :: before <= BoundaryOf(snapshots[k], range)
    ensures Sound(Apply(work, snapshots, model, range), range.from, LastFrom(before, snapshots, range))
    decreases |snapshots|
  {
    if snapshots != [] {
      hide Step;
      var last := |snapshots| - 1;
      ApplyKeepsSound(work, before, snapshots[..last], model, range);
      hide Sound;
      var at := snapshots[last].ref.committedAt.value;
      StepKeepsSound(Apply(work, snapshots[..last], model, range), Resolve(snapshots[last], model), range,
                     LastFrom(before, snapshots[..last], range), Boundary(range.from, at), snapshots[last].ref.sha, at);
    }
  }

  lemma ApplyIsSound(snapshots: seq<Snapshot>, model: string, range: Range)
    requires InSequence(snapshots, range)
    ensures Sound(Apply(NOTHING, snapshots, model, range), range.from, LastBoundary(snapshots, range))
  {
    assert Sound(NOTHING, range.from, range.from);
    hide Apply, Sound;
    ApplyKeepsSound(NOTHING, range.from, snapshots, model, range);
  }

  lemma {:induction false} ApplyConcat(work: Work, a: seq<Snapshot>, b: seq<Snapshot>, model: string, range: Range)
    requires Timed(a) && Timed(b)
    ensures Apply(work, a + b, model, range) == Apply(Apply(work, a, model, range), b, model, range)
    decreases |b|
  {
    hide StepSnapshot;
    if b == [] {
      assert a + b == a;
    } else {
      var last := |b| - 1;
      ApplyConcat(work, a, b[..last], model, range);
      assert (a + b)[..|a + b| - 1] == a + b[..last];
    }
  }

  // ------------------------------------------------- rows against the naive rule

  predicate Covers(effectiveAt: int, row: Row, t: int) {
    effectiveAt <= t && (row.validUntil.None? || t < row.validUntil.value)
  }

  /** The rows quote `expected` at `t`: every row covering `t` carries it, and there is one unless it is nothing. */
  ghost predicate Quotes(rows: map<int, Row>, t: int, expected: Option<Quote>) {
    && (forall e | e in rows && Covers(e, rows[e], t) :: expected == Some(rows[e].quote))
    && (expected.Some? ==> exists e :: e in rows && Covers(e, rows[e], t))
  }

  /** The first snapshot that prices the model. */
  ghost function FirstPriced(snapshots: seq<Snapshot>, model: string): Option<Snapshot> {
    if snapshots == [] then None
    else
      var earlier := FirstPriced(snapshots[..|snapshots| - 1], model);
      var last := snapshots[|snapshots| - 1];
      if earlier.Some? then earlier else if model in last.pricing then Some(last) else None
  }

  /** The naive rule, with the model's first price extended back over everything before it. */
  ghost function Recovered(snapshots: seq<Snapshot>, model: string, range: Range, t: int): Option<Quote>
    requires Timed(snapshots)
  {
    var first := FirstPriced(snapshots, model);
    if first.Some? && first.value.ref.committedAt.Some? && t < BoundaryOf(first.value, range) then QuoteOf(Resolve(first.value, model))
    else InForce(snapshots, model, t)
  }

  lemma {:induction false} FirstPricedIsTimed(snapshots: seq<Snapshot>, model: string, range: Range)
    requires InSequence(snapshots, range)
    ensures var first := FirstPriced(snapshots, model);
            first.Some? ==> first.value in snapshots && first.value.ref.committedAt.Some? && model in first.value.pricing
    ensures forall k | 0 <= k < |snapshots| && model in snapshots[k].pricing ::
              var first := FirstPriced(snapshots, model);
              first.Some? && BoundaryOf(first.value, range) <= BoundaryOf(snapshots[k], range)
    decreases |snapshots|
  {
    if snapshots != [] {
      var last := |snapshots| - 1;
      FirstPricedIsTimed(snapshots[..last], model, range);
      forall k | 0 <= k < last && model in snapshots[k].pricing ensures FirstPriced(snapshots[..last], model).Some? {
        assert snapshots[..last][k] == snapshots[k];
      }
      var first := FirstPriced(snapshots[..last], model);
      if first.Some? {
        var i :| 0 <= i < last && snapshots[..last][i] == first.value;
        assert BoundaryOf(snapshots[i], range) <= BoundaryOf(snapshots[last], range);
      }
    }
  }

  /** Nothing is in force of a model no snapshot prices. */
  lemma {:induction false} UnpricedHasNoQuote(snapshots: seq<Snapshot>, model: string, t: int)
    requires Timed(snapshots) && FirstPriced(snapshots, model).None?
    ensures InForce(snapshots, model, t) == None
    decreases |snapshots|
  {
    if snapshots != [] {
      UnpricedHasNoQuote(snapshots[..|snapshots| - 1], model, t);
    }
  }

  /** One more snapshot changes the recovered quote from its boundary on, and before it when it is the first to price. */
  lemma RecoveredStep(snapshots: seq<Snapshot>, model: string, range: Range, t: int)
    requires InSequence(snapshots, range) && snapshots != [] && range.from <= t
    ensures Timed(snapshots[..|snapshots| - 1])
    ensures var last := snapshots[|snapshots| - 1];
            var earlier := snapshots[..|snapshots| - 1];
            var resolved := Resolve(last, model);
            Recovered(snapshots, model, range, t) ==
              if t >= BoundaryOf(last, range) || (FirstPriced(earlier, model).None? && resolved.Some?) then QuoteOf(resolved)
              else Recovered(earlier, model, range, t)
  {
    var last := |snapshots| - 1;
    var earlier := snapshots[..last];
    SequencePrefix(snapshots, last, range);
    FirstPricedIsTimed(earlier, model, range);
    var first := FirstPriced(earlier, model);
    if first.None? {
      UnpricedHasNoQuote(earlier, model, t);
    } else {
      var i :| 0 <= i < last && earlier[i] == first.value;
      assert BoundaryOf(snapshots[i], range) <= BoundaryOf(snapshots[last], range);
    }
    hide InSequence;
  }

  lemma EndedQuotes(rows: map<int, Row>, ended: map<int, Row>, boundary: int, t: int, expected: Option<Quote>)
    requires Quotes(rows, t, expected) && ended.Keys <= rows.Keys
    requires forall e | e in ended :: ended[e].quote == rows[e].quote
    requires forall e | e in rows :: (e in ended && Covers(e, ended[e], t)) <==> t < boundary && Covers(e, rows[e], t)
    ensures Quotes(ended, t, if t >= boundary then None else expected)
  {
    hide Covers;
    if t < boundary && expected.Some? {
      var e :| e in rows && Covers(e, rows[e], t);
      assert e in ended && Covers(e, ended[e], t);
    }
  }

  /** The boundary closes the open row there: before it the same quote, from it on none. */
  lemma CloseQuotes(work: Work, from: int, before: int, boundary: int, t: int, expected: Option<Quote>)
    requires Consistent(work) && Ordered(work.rows, from, before) && from <= before <= boundary
    requires Quotes(work.rows, t, expected)
    ensures Quotes(Close(work, boundary).rows, t, if t >= boundary then None else expected)
  {
    hide Quotes;
    var ended := Close(work, boundary).rows;
    if work.open.Some? {
      var e := work.open.value.effectiveAt;
      assert IsOpen(work.rows, e);
      assert ended == if boundary <= e then work.rows - {e} else work.rows[e := work.rows[e].(validUntil := Some(boundary))];
    }
    forall e | e in work.rows ensures (e in ended && Covers(e, ended[e], t)) <==> t < boundary && Covers(e, work.rows[e], t) {
      hide CloseRow;
      assert IsOpen(work.rows, e) || work.rows[e].validUntil.value <= before;
    }
    EndedQuotes(work.rows, ended, boundary, t, expected);
  }

  /** A row opened at `effectiveAt`, when every other one has ended by then, takes over from there on. */
  lemma OpenQuotes(work: Work, resolved: Resolved, effectiveAt: int, sha: string, at: int, t: int, expected: Option<Quote>)
    requires effectiveAt !in work.rows
    requires Quotes(work.rows, t, if t >= effectiveAt then None else expected)
    ensures Quotes(Open(work, resolved, effectiveAt, sha, at).rows, t, if t >= effectiveAt then QuoteOf(Some(resolved)) else expected)
  {
    hide Normalized;
    var quote := Quote(resolved.sourceModelId, Normalized(resolved.price));
    var after := work.rows[effectiveAt := Row(quote, None, sha, at)];
    assert Open(work, resolved, effectiveAt, sha, at).rows == after;
    if t >= effectiveAt {
      assert Covers(effectiveAt, after[effectiveAt], t);
      assert forall e | e in work.rows :: !Covers(e, work.rows[e], t);
    } else if expected.Some? {
      var e :| e in work.rows && Covers(e, work.rows[e], t);
      assert e in after && Covers(e, after[e], t);
    }
  }

  /** An unchanged open row quotes what the new resolution says from the boundary on. */
  lemma UnchangedQuotes(work: Work, resolved: Resolved, before: int, boundary: int, from: int, t: int, expected: Option<Quote>)
    requires Sound(work, from, before) && before <= boundary && Quotes(work.rows, t, expected)
    requires work.open.Some? && Unchanged(work.open.value, resolved)
    requires work.open.value.quote.price == Normalized(work.open.value.quote.price)
    ensures work.seen
    ensures Quotes(work.rows, t, if t >= boundary then QuoteOf(Some(resolved)) else expected)
  {
    var e := work.open.value.effectiveAt;
    assert IsOpen(work.rows, e) && e <= before;
    var previous := work.open.value.quote;
    SameQuote(Resolved(previous.sourceModelId, previous.price), resolved);
    if t >= boundary {
      assert Covers(e, work.rows[e], t);
    }
  }

  /** Memory holds prices with the default multiplier written out. */
  ghost predicate NormalOpen(work: Work) {
    work.open.Some? ==> work.open.value.quote.price == Normalized(work.open.value.quote.price)
  }

  lemma StepKeepsNormal(work: Work, resolved: Option<Resolved>, range: Range, boundary: int, sha: string, at: int)
    requires NormalOpen(work)
    ensures NormalOpen(Step(work, resolved, range, boundary, sha, at))
  {
  }

  lemma StepQuotes(work: Work, resolved: Option<Resolved>, range: Range, before: int, boundary: int, sha: string, at: int,
                   t: int, expected: Option<Quote>)
    requires Sound(work, range.from, before) && NormalOpen(work) && Quotes(work.rows, t, expected)
    requires range.from <= before <= boundary && range.from <= t < range.to
    ensures var next := Step(work, resolved, range, boundary, sha, at);
            && Quotes(next.rows, t, if t >= boundary || (!work.seen && resolved.Some?) then QuoteOf(resolved) else expected)
            && (next.seen <==> work.seen || resolved.Some?)
  {
    if work.open.Some? && resolved.Some? && Unchanged(work.open.value, resolved.value) {
      UnchangedQuotes(work, resolved.value, before, boundary, range.from, t, expected);
    } else {
      hide Unchanged, Quotes;
      var closed := Close(work, boundary);
      CloseKeepsConsistent(work, boundary);
      CloseQuotes(work, range.from, before, boundary, t, expected);
      CloseKeepsOrdered(work, range.from, before, boundary);
      assert !work.seen ==> work.rows == map[] && closed.rows == map[];
      hide Close, Open;
      var effectiveAt := if work.seen then boundary else range.from;
      if resolved.Some? && effectiveAt < range.to {
        if !work.seen { EmptyQuotes(t, if t >= boundary then None else expected); }
        OpenQuotes(closed, resolved.value, effectiveAt, sha, at, t, expected);
      }
    }
  }

  lemma EmptyQuotes(t: int, expected: Option<Quote>)
    ensures Quotes(map[], t, expected) <==> expected.None?
  {
  }

  /** After any list in sequence the rows of a model quote the recovered prices all over the range. */
  lemma {:induction false} ApplyQuotes(snapshots: seq<Snapshot>, model: string, range: Range, t: int)
    requires InSequence(snapshots, range) && range.from <= t < range.to
    ensures var work := Apply(NOTHING, snapshots, model, range);
            && Quotes(work.rows, t, Recovered(snapshots, model, range, t))
            && (work.seen <==> FirstPriced(snapshots, model).Some?)
            && NormalOpen(work)
    decreases |snapshots|
  {
    if snapshots != [] {
      var last := |snapshots| - 1;
      var earlier := snapshots[..last];
      SequencePrefix(snapshots, last, range);
      ApplyQuotes(earlier, model, range, t);
      ApplyIsSound(earlier, model, range);
      hide InSequence, Sound, Quotes, NormalOpen, Step;
      RecoveredStep(snapshots, model, range, t);
      hide Recovered;
      var work := Apply(NOTHING, earlier, model, range);
      var at := snapshots[last].ref.committedAt.value;
      var resolved := Resolve(snapshots[last], model);
      var boundary := Boundary(range.from, at);
      StepQuotes(work, resolved, range, LastBoundary(earlier, range), boundary, snapshots[last].ref.sha, at, t,
                 Recovered(earlier, model, range, t));
      StepKeepsNormal(work, resolved, range, boundary, snapshots[last].ref.sha, at);
    }
  }

  lemma FinishQuotes(rows: map<int, Row>, to: int, t: int, expected: Option<Quote>)
    requires Quotes(rows, t, expected) && t < to
    ensures Quotes(Finish(rows, to), t, expected)
  {
    var ended := Finish(rows, to);
    if expected.Some? {
      var e :| e in rows && Covers(e, rows[e], t);
      assert e in ended && Covers(e, ended[e], t);
    }
  }

  /** Every row has an end after its start, and no two overlap. */
  ghost predicate Disjoint(rows: map<int, Row>) {
    && (forall e | e in rows :: rows[e].validUntil.Some? && e < rows[e].validUntil.value)
    && forall a, b | a in rows && b in rows && a < b :: rows[a].validUntil.value <= b
  }

  lemma FinishIsDisjoint(rows: map<int, Row>, from: int, boundary: int, to: int)
    requires Ordered(rows, from, boundary)
    ensures Disjoint(Finish(rows, to))
  {
  }

  // ------------------------------------------- prices taken back at the instant they were given

  predicate PricesAt(snapshot: Snapshot, model: string, range: Range, boundary: int) {
    model in snapshot.pricing && snapshot.ref.committedAt.Some? && BoundaryOf(snapshot, range) == boundary
  }

  /**
   * The model is priced at the range start, and every snapshot that prices it inside the range is followed by
   * another one at the same instant: no price is left standing.
   */
  ghost predicate Retracted(snapshots: seq<Snapshot>, model: string, range: Range) {
    && Timed(snapshots)
    && (exists k :: 0 <= k < |snapshots| && PricesAt(snapshots[k], model, range, range.from))
    && forall k :: 0 <= k < |snapshots| && model in snapshots[k].pricing && BoundaryOf(snapshots[k], range) < range.to ==>
         k + 1 < |snapshots| && BoundaryOf(snapshots[k + 1], range) == BoundaryOf(snapshots[k], range)
  }

  /** The last snapshot at or before an instant of the range says what is in force. */
  lemma {:induction false} LastWord(snapshots: seq<Snapshot>, model: string, range: Range, t: int, k: nat)
    requires InSequence(snapshots, range) && k < |snapshots| && range.from <= t
    requires BoundaryOf(snapshots[k], range) <= t && (k + 1 < |snapshots| ==> t < BoundaryOf(snapshots[k + 1], range))
    ensures InForce(snapshots, model, t) == QuoteOf(Resolve(snapshots[k], model))
    decreases |snapshots|
  {
    var last := |snapshots| - 1;
    if k < last {
      assert BoundaryOf(snapshots[k + 1], range) <= BoundaryOf(snapshots[last], range);
      LastWord(snapshots[..last], model, range, t, k);
    }
  }

  lemma {:induction false} SpokenBy(snapshots: seq<Snapshot>, model: string, range: Range, t: int) returns (k: nat)
    requires InSequence(snapshots, range) && range.from <= t && InForce(snapshots, model, t).Some?
    ensures k < |snapshots| && model in snapshots[k].pricing
    ensures BoundaryOf(snapshots[k], range) <= t && (k + 1 < |snapshots| ==> t < BoundaryOf(snapshots[k + 1], range))
    decreases |snapshots|
  {
    var last := |snapshots| - 1;
    if snapshots[last].ref.committedAt.value <= t { k := last; }
    else { k := SpokenBy(snapshots[..last], model, range, t); }
  }

  /** Whatever a row quotes at its start was recovered there. */
  lemma RowIsRecovered(snapshots: seq<Snapshot>, model: string, range: Range, e: int)
    requires InSequence(snapshots, range) && range.from < range.to
    requires e in Apply(NOTHING, snapshots, model, range).rows
    ensures range.from <= e < range.to && Recovered(snapshots, model, range, e).Some?
  {
    ApplyIsSound(snapshots, model, range);
    StartsInRange(snapshots, model, range);
    ApplyQuotes(snapshots, model, range, e);
    var rows := Apply(NOTHING, snapshots, model, range).rows;
    assert Covers(e, rows[e], e);
  }

  lemma RetractedIsForgotten(snapshots: seq<Snapshot>, model: string, range: Range)
    requires InSequence(snapshots, range) && range.from < range.to && Retracted(snapshots, model, range)
    ensures Apply(NOTHING, snapshots, model, range).seen && Apply(NOTHING, snapshots, model, range).rows == map[]
  {
    FirstPricedIsTimed(snapshots, model, range);
    ApplyQuotes(snapshots, model, range, range.from);
    hide Apply;
    forall e | e in Apply(NOTHING, snapshots, model, range).rows ensures false {
      RowIsRecovered(snapshots, model, range, e);
      var k := SpokenBy(snapshots, model, range, e);
    }
  }

  lemma ForgottenIsRetracted(snapshots: seq<Snapshot>, model: string, range: Range)
    requires InSequence(snapshots, range) && range.from < range.to
    requires Apply(NOTHING, snapshots, model, range).seen && Apply(NOTHING, snapshots, model, range).rows == map[]
    ensures Retracted(snapshots, model, range)
  {
    FirstPricedIsTimed(snapshots, model, range);
    ApplyQuotes(snapshots, model, range, range.from);
    hide Apply;
    var first := FirstPriced(snapshots, model).value;
    EmptyQuotes(range.from, Recovered(snapshots, model, range, range.from));
    assert BoundaryOf(first, range) == range.from;
    var i :| 0 <= i < |snapshots| && snapshots[i] == first;
    assert PricesAt(snapshots[i], model, range, range.from);
    forall k | 0 <= k < |snapshots| && model in snapshots[k].pricing && BoundaryOf(snapshots[k], range) < range.to
      ensures k + 1 < |snapshots| && BoundaryOf(snapshots[k + 1], range) == BoundaryOf(snapshots[k], range)
    {
      var t := BoundaryOf(snapshots[k], range);
      ApplyQuotes(snapshots, model, range, t);
      EmptyQuotes(t, Recovered(snapshots, model, range, t));
      if k + 1 == |snapshots| || BoundaryOf(snapshots[k + 1], range) > t { LastWord(snapshots, model, range, t, k); }
    }
  }

  /** A batch in progress has seen a model of which the table knows nothing exactly when its prices were taken back. */
  lemma ForgottenIff(snapshots: seq<Snapshot>, model: string, range: Range)
    requires InSequence(snapshots, range) && range.from < range.to
    ensures var work := Apply(NOTHING, snapshots, model, range);
            (work.seen && work.rows == map[]) <==> Retracted(snapshots, model, range)
  {
    var work := Apply(NOTHING, snapshots, model, range);
    hide Apply, InSequence, Retracted;
    if work.seen && work.rows == map[] { ForgottenIsRetracted(snapshots, model, range); }
    if Retracted(snapshots, model, range) { RetractedIsForgotten(snapshots, model, range); }
  }

  // ---------------------------------------------------- any cut into batches

  function Flatten(batches: seq<seq<Snapshot>>): seq<Snapshot> {
    if batches == [] then [] else Flatten(batches[..|batches| - 1]) + batches[|batches| - 1]
  }

  /** The rows after saving the batches one by one, each starting from the table; none of them the last. */
  ghost function SavedInBatches(batches: seq<seq<Snapshot>>, model: string, range: Range): map<int, Row>
    requires forall k :: 0 <= k < |batches| ==> Timed(batches[k])
    decreases |batches|
  {
    if batches == [] then map[]
    else
      Saved(SavedInBatches(batches[..|batches| - 1], model, range), batches[|batches| - 1], model, range, false)
  }

  lemma {:induction false} BatchesAreTimed(batches: seq<seq<Snapshot>>)
    requires Timed(Flatten(batches))
    ensures forall k :: 0 <= k < |batches| ==> Timed(batches[k])
    decreases |batches|
  {
    if batches != [] {
      var last := |batches| - 1;
      var earlier := Flatten(batches[..last]);
      assert forall k :: 0 <= k < |earlier| ==> earlier[k] == Flatten(batches)[k];
      BatchesAreTimed(batches[..last]);
      assert forall k :: 0 <= k < |batches[last]| ==> batches[last][k] == Flatten(batches)[|earlier| + k];
    }
  }

  ghost const FORGOTTEN: Work := Work(map[], None, true)

  lemma StepKeepsStart(work: Work, resolved: Option<Resolved>, range: Range, boundary: int, sha: string, at: int)
    requires work.seen && range.from < boundary
    ensures var next := Step(work, resolved, range, boundary, sha, at);
            next.seen && (range.from in next.rows <==> range.from in work.rows)
  {
    hide Normalized;
  }

  /** After the range start a row is neither opened at the range start nor deleted there. */
  lemma {:induction false} ApplyKeepsStart(work: Work, snapshots: seq<Snapshot>, model: string, range: Range)
    requires work.seen && Timed(snapshots)
    requires forall k | 0 <= k < |snapshots| :: range.from < BoundaryOf(snapshots[k], range)
    ensures var next := Apply(work, snapshots, model, range);
            next.seen && (range.from in next.rows <==> range.from in work.rows)
    decreases |snapshots|
  {
    if snapshots != [] {
      hide Step;
      var last := |snapshots| - 1;
      ApplyKeepsStart(work, snapshots[..last], model, range);
      var at := snapshots[last].ref.committedAt.value;
      StepKeepsStart(Apply(work, snapshots[..last], model, range), Resolve(snapshots[last], model), range,
                     Boundary(range.from, at), snapshots[last].ref.sha, at);
    }
  }

  /** The first price comes into force after the range start. */
  ghost predicate PricedLater(snapshots: seq<Snapshot>, model: string, range: Range) {
    var first := FirstPriced(snapshots, model);
    first.Some? && first.value.ref.committedAt.Some? && range.from < BoundaryOf(first.value, range)
  }

  lemma FirstStep(snapshot: Snapshot, model: string, range: Range)
    requires snapshot.ref.committedAt.Some? && range.from < range.to
    ensures var plain, forgotten := StepSnapshot(NOTHING, snapshot, model, range), StepSnapshot(FORGOTTEN, snapshot, model, range);
            if model !in snapshot.pricing then plain == NOTHING && forgotten == FORGOTTEN
            else
              && plain.seen && forgotten.seen
              && if BoundaryOf(snapshot, range) == range.from then plain == forgotten
                 else range.from in plain.rows && range.from !in forgotten.rows
  {
    hide Normalized;
  }

  /**
   * What a batch makes of a forgotten model it also makes of one never seen, unless the first price comes into
   * force after the range start: only one of the two then has a row that begins with the range.
   */
  lemma {:induction false} ForgottenApply(snapshots: seq<Snapshot>, model: string, range: Range)
    requires InSequence(snapshots, range) && range.from < range.to
    ensures var plain, forgotten := Apply(NOTHING, snapshots, model, range), Apply(FORGOTTEN, snapshots, model, range);
            && forgotten.seen
            && (FirstPriced(snapshots, model).None? ==> plain == NOTHING && forgotten == FORGOTTEN)
            && (FirstPriced(snapshots, model).Some? ==> plain.seen)
            && (if PricedLater(snapshots, model, range) then range.from in plain.rows && range.from !in forgotten.rows
                else plain.rows == forgotten.rows && plain.open == forgotten.open)
    decreases |snapshots|
  {
    if snapshots != [] {
      var last := |snapshots| - 1;
      var earlier := snapshots[..last];
      SequencePrefix(snapshots, last, range);
      ForgottenApply(earlier, model, range);
      FirstPricedIsTimed(earlier, model, range);
      var plain, forgotten := Apply(NOTHING, earlier, model, range), Apply(FORGOTTEN, earlier, model, range);
      var first := FirstPriced(earlier, model);
      if first.None? {
        hide StepSnapshot;
        FirstStep(snapshots[last], model, range);
      } else if PricedLater(earlier, model, range) {
        var i :| 0 <= i < last && earlier[i] == first.value;
        assert BoundaryOf(snapshots[i], range) <= BoundaryOf(snapshots[last], range);
        hide Step;
        var at := snapshots[last].ref.committedAt.value;
        StepKeepsStart(plain, Resolve(snapshots[last], model), range, Boundary(range.from, at), snapshots[last].ref.sha, at);
        StepKeepsStart(forgotten, Resolve(snapshots[last], model), range, Boundary(range.from, at), snapshots[last].ref.sha, at);
      } else {
        assert plain == forgotten;
      }
    }
  }

  /** Batch `n` begins where the model's prices have all been taken back, and prices it only later. */
  ghost predicate ForgetsAt(batches: seq<seq<Snapshot>>, n: nat, model: string, range: Range) {
    n < |batches| && Retracted(Flatten(batches[..n]), model, range) && PricedLater(batches[n], model, range)
  }

  ghost predicate Forgets(batches: seq<seq<Snapshot>>, model: string, range: Range) {
    exists n: nat :: ForgetsAt(batches, n, model, range)
  }

  lemma ForgetsNext(earlier: seq<seq<Snapshot>>, batch: seq<Snapshot>, model: string, range: Range)
    ensures Forgets(earlier + [batch], model, range) <==>
      Forgets(earlier, model, range) || (Retracted(Flatten(earlier), model, range) && PricedLater(batch, model, range))
  {
    var batches := earlier + [batch];
    hide Retracted, PricedLater, Flatten;
    forall n: nat | n <= |earlier| ensures batches[..n] == earlier[..n] {}
    assert earlier[..|earlier|] == earlier;
    if Forgets(earlier, model, range) {
      var n: nat :| ForgetsAt(earlier, n, model, range);
      assert ForgetsAt(batches, n, model, range);
    }
    if Retracted(Flatten(earlier), model, range) && PricedLater(batch, model, range) {
      assert ForgetsAt(batches, |earlier|, model, range);
    }
    if Forgets(batches, model, range) {
      var n: nat :| ForgetsAt(batches, n, model, range);
      if n < |earlier| { assert ForgetsAt(earlier, n, model, range); }
    }
  }

  lemma LoadIsSound(work: Work, from: int, boundary: int)
    requires Sound(work, from, boundary)
    ensures Sound(Load(work.rows), from, boundary)
  {
    ConsistentIsOneOpen(work);
    LoadIsConsistent(work.rows);
  }

  /** After a restart the batch goes on from `rows`: as without the restart, or with a row that begins with the range. */
  ghost predicate Diverged(rows: map<int, Row>, work: Work, from: int, boundary: int) {
    from in rows && from !in work.rows && work.seen && from < boundary
  }

  lemma NextBatch(rows: map<int, Row>, snapshots: seq<Snapshot>, batch: seq<Snapshot>, model: string, range: Range, forgets: bool)
    requires InSequence(snapshots + batch, range) && range.from < range.to && Timed(snapshots) && Timed(batch)
    requires var work := Apply(NOTHING, snapshots, model, range);
             if forgets then Diverged(rows, work, range.from, LastBoundary(snapshots, range)) else rows == work.rows
    ensures var after, work := Apply(Load(rows), batch, model, range).rows, Apply(NOTHING, snapshots + batch, model, range);
            if forgets || (Retracted(snapshots, model, range) && PricedLater(batch, model, range))
            then Diverged(after, work, range.from, LastBoundary(snapshots + batch, range))
            else after == work.rows
  {
    SplitSequence(snapshots, batch, range);
    ApplyConcat(NOTHING, snapshots, batch, model, range);
    ApplyIsSound(snapshots, model, range);
    ForgottenIff(snapshots, model, range);
    PricedLaterEnds(batch, model, range);
    var work := Apply(NOTHING, snapshots, model, range);
    hide Apply, Retracted, Ordered, InSequence, PricedLater;
    if forgets {
      ApplyKeepsStart(work, batch, model, range);
      ApplyKeepsStart(Load(rows), batch, model, range);
    } else if Retracted(snapshots, model, range) {
      ReloadIsIdentityIff(NOTHING);
      assert work == FORGOTTEN by { assert work.open.Some? ==> IsOpen(work.rows, work.open.value.effectiveAt); }
      hide Consistent, Load;
      ForgottenApply(batch, model, range);
    } else {
      ReloadIsIdentityIff(work);
    }
  }

  lemma PricedLaterEnds(batch: seq<Snapshot>, model: string, range: Range)
    requires InSequence(batch, range)
    ensures PricedLater(batch, model, range) ==> FirstPriced(batch, model).Some? && batch != [] && range.from < BoundaryOf(batch[|batch| - 1], range)
  {
    FirstPricedIsTimed(batch, model, range);
    if PricedLater(batch, model, range) {
      var i :| 0 <= i < |batch| && batch[i] == FirstPriced(batch, model).value;
      assert BoundaryOf(batch[i], range) <= BoundaryOf(batch[|batch| - 1], range);
    }
  }

  lemma FlattenNext(earlier: seq<seq<Snapshot>>, batch: seq<Snapshot>)
    ensures Flatten(earlier + [batch]) == Flatten(earlier) + batch
  {
    assert (earlier + [batch])[..|earlier|] == earlier;
  }

  lemma SavedNext(earlier: seq<seq<Snapshot>>, batch: seq<Snapshot>, model: string, range: Range)
    requires Timed(batch) && forall k :: 0 <= k < |earlier| ==> Timed(earlier[k])
    ensures SavedInBatches(earlier + [batch], model, range) == Apply(Load(SavedInBatches(earlier, model, range)), batch, model, range).rows
  {
    assert (earlier + [batch])[..|earlier|] == earlier;
  }

  lemma SplitSequence(a: seq<Snapshot>, b: seq<Snapshot>, range: Range)
    requires InSequence(a + b, range)
    ensures InSequence(a, range) && InSequence(b, range) && range.from <= LastBoundary(a, range)
    ensures forall k | 0 <= k < |b| :: LastBoundary(a, range) <= BoundaryOf(b[k], range)
    ensures LastFrom(LastBoundary(a, range), b, range) == LastBoundary(a + b, range)
  {
    var all := a + b;
    assert all[..|a|] == a && all[|a|..] == b;
    SequencePrefix(all, |a|, range);
    assert forall k | 0 <= k < |b| :: all[|a| + k] == b[k];
    assert b == [] ==> all == a;
  }

  /** What a cut into batches leaves, against one single batch. */
  lemma {:induction false} CutsCompare(batches: seq<seq<Snapshot>>, model: string, range: Range)
    requires InSequence(Flatten(batches), range) && range.from < range.to
    ensures forall k :: 0 <= k < |batches| ==> Timed(batches[k])
    ensures var rows, work := SavedInBatches(batches, model, range), Apply(NOTHING, Flatten(batches), model, range);
            && Sound(Load(rows), range.from, LastBoundary(Flatten(batches), range))
            && if Forgets(batches, model, range) then Diverged(rows, work, range.from, LastBoundary(Flatten(batches), range))
               else rows == work.rows
    decreases |batches|
  {
    BatchesAreTimed(batches);
    if batches == [] {
      assert !Forgets(batches, model, range);
      assert Sound(Load(map[]), range.from, range.from);
    } else {
      var last := |batches| - 1;
      var earlier, batch := batches[..last], batches[last];
      assert batches == earlier + [batch];
      FlattenNext(earlier, batch);
      hide Flatten, Apply, Sound, Forgets, Diverged, Load, SavedInBatches, Retracted, PricedLater;
      SplitSequence(Flatten(earlier), batch, range);
      hide InSequence, BoundaryOf, LastFrom, LastBoundary;
      CutsCompare(earlier, model, range);
      CutsCompareNext(earlier, batch, model, range);
    }
  }

  lemma CutsCompareNext(earlier: seq<seq<Snapshot>>, batch: seq<Snapshot>, model: string, range: Range)
    requires InSequence(Flatten(earlier) + batch, range) && Timed(Flatten(earlier)) && range.from < range.to
    requires Timed(batch) && forall k :: 0 <= k < |earlier| ==> Timed(earlier[k])
    requires var rows, work := SavedInBatches(earlier, model, range), Apply(NOTHING, Flatten(earlier), model, range);
             && Sound(Load(rows), range.from, LastBoundary(Flatten(earlier), range))
             && if Forgets(earlier, model, range) then Diverged(rows, work, range.from, LastBoundary(Flatten(earlier), range))
                else rows == work.rows
    ensures var all := Flatten(earlier) + batch;
            var rows, work := SavedInBatches(earlier + [batch], model, range), Apply(NOTHING, all, model, range);
            && Sound(Load(rows), range.from, LastBoundary(all, range))
            && if Forgets(earlier + [batch], model, range) then Diverged(rows, work, range.from, LastBoundary(all, range))
               else rows == work.rows
  {
    var rows, before := SavedInBatches(earlier, model, range), Flatten(earlier);
    SavedNext(earlier, batch, model, range);
    SplitSequence(before, batch, range);
    hide Flatten, Apply, Sound, Forgets, Diverged, Load, SavedInBatches, Retracted, PricedLater, InSequence, BoundaryOf;
    ForgetsNext(earlier, batch, model, range);
    NextBatch(rows, before, batch, model, range, Forgets(earlier, model, range));
    ApplyKeepsSound(Load(rows), LastBoundary(before, range), batch, model, range);
    LoadIsSound(Apply(Load(rows), batch, model, range), range.from, LastBoundary(before + batch, range));
  }

  /** The rows after the batches, the last of them as the end of the job when `finished`. */
  ghost function TableRows(batches: seq<seq<Snapshot>>, model: string, range: Range, finished: bool): map<int, Row>
    requires forall k :: 0 <= k < |batches| ==> Timed(batches[k])
  {
    if finished then Finish(SavedInBatches(batches, model, range), range.to) else SavedInBatches(batches, model, range)
  }

  /**
   * For every list in sequence and every cut of it into batches: the table is the one a single batch would leave
   * exactly when no batch begins where all prices of the model have been taken back and prices it again later.
   */
  lemma BatchingIsIrrelevantIff(batches: seq<seq<Snapshot>>, model: string, range: Range, finished: bool)
    requires InSequence(Flatten(batches), range) && range.from < range.to
    ensures forall k :: 0 <= k < |batches| ==> Timed(batches[k])
    ensures TableRows(batches, model, range, finished) == Saved(map[], Flatten(batches), model, range, finished) <==>
      !Forgets(batches, model, range)
  {
    CutsCompare(batches, model, range);
    assert Load(map[]) == NOTHING;
    hide Apply, Load, SavedInBatches, Forgets, Flatten, Sound, InSequence, Finish;
    FinishTells(SavedInBatches(batches, model, range), Apply(NOTHING, Flatten(batches), model, range).rows, range);
  }

  lemma FinishTells(a: map<int, Row>, b: map<int, Row>, range: Range)
    requires range.from < range.to
    ensures range.from in a && range.from !in b ==> Finish(a, range.to) != Finish(b, range.to)
  {
    if range.from in a && range.from !in b {
      assert range.from in Finish(a, range.to) && range.from !in Finish(b, range.to);
    }
  }

  /** When only the first snapshot comes into force with the range start, no cut forgets anything. */
  lemma LaterChangesForgetNothing(batches: seq<seq<Snapshot>>, model: string, range: Range)
    requires InSequence(Flatten(batches), range) && range.from < range.to
    requires forall k :: 0 < k < |Flatten(batches)| ==> range.from < BoundaryOf(Flatten(batches)[k], range)
    ensures !Forgets(batches, model, range)
  {
    forall n: nat ensures !ForgetsAt(batches, n, model, range) {
      if n < |batches| {
        var before := Flatten(batches[..n]);
        FlattenPrefix(batches, n);
        assert forall k | 0 < k < |before| :: before[k] == Flatten(batches)[k];
        if Timed(before) { RetractedMeetsAgain(before, model, range); }
      }
    }
  }

  /** Prices are taken back only by a second snapshot at the range start. */
  lemma RetractedMeetsAgain(snapshots: seq<Snapshot>, model: string, range: Range)
    requires Timed(snapshots) && range.from < range.to
    ensures Retracted(snapshots, model, range) ==> exists k :: 0 < k < |snapshots| && BoundaryOf(snapshots[k], range) == range.from
  {
    if Retracted(snapshots, model, range) {
      var k :| 0 <= k < |snapshots| && PricesAt(snapshots[k], model, range, range.from);
      if k == 0 { assert BoundaryOf(snapshots[1], range) == range.from; }
    }
  }

  lemma {:induction false} FlattenPrefix(batches: seq<seq<Snapshot>>, n: nat)
    requires n <= |batches|
    ensures Flatten(batches[..n]) <= Flatten(batches)
    decreases |batches|
  {
    if n < |batches| {
      var last := |batches| - 1;
      assert batches[..last][..n] == batches[..n];
      FlattenPrefix(batches[..last], n);
    } else {
      assert batches[..n] == batches;
    }
  }

  /**
   * The cut can matter: two commits at the very start of the range, the second without the model, delete the
   * model's only row, which a batch in progress remembers and a restarted one does not.
   */
  lemma RestartCanMatter(price: Price)
    ensures var range := Range(100, 1000);
            var present := map["m" := Resolved("m", price)];
            var a, b, c := Snapshot(Ref("a", Some(100)), present), Snapshot(Ref("b", Some(100)), map[]), Snapshot(Ref("c", Some(500)), present);
            && Timed([a, b, c])
            && SavedInBatches([[a, b, c]], "m", range).Keys == {500}
            && SavedInBatches([[a, b], [c]], "m", range).Keys == {100}
  {
    var range := Range(100, 1000);
    var present := map["m" := Resolved("m", price)];
    var a, b, c := Snapshot(Ref("a", Some(100)), present), Snapshot(Ref("b", Some(100)), map[]), Snapshot(Ref("c", Some(500)), present);
    assert SavedInBatches([], "m", range) == map[];
    assert [[a, b, c]][..0] == [];
    assert [a, b, c][..2] == [a, b];
    ApplyPair(NOTHING, a, b, "m", range);
    assert StepSnapshot(NOTHING, a, "m", range).rows.Keys == {100};
    var two := Apply(NOTHING, [a, b], "m", range);
    assert two == FORGOTTEN;
    assert Apply(NOTHING, [a, b, c], "m", range) == StepSnapshot(two, c, "m", range);
    assert [[a, b], [c]][..1] == [[a, b]];
    assert [[a, b]][..0] == [];
    assert SavedInBatches([[a, b]], "m", range) == map[];
    ApplyOne(NOTHING, c, "m", range);
    assert Load(map[]) == NOTHING;
  }

  lemma ApplyPair(work: Work, a: Snapshot, b: Snapshot, model: string, range: Range)
    requires a.ref.committedAt.Some? && b.ref.committedAt.Some?
    ensures Apply(work, [a, b], model, range) == StepSnapshot(StepSnapshot(work, a, model, range), b, model, range)
  {
    hide StepSnapshot;
    ApplyOne(work, a, model, range);
    assert [a, b][..1] == [a];
  }

  lemma ApplyOne(work: Work, a: Snapshot, model: string, range: Range)
    requires a.ref.committedAt.Some?
    ensures Apply(work, [a], model, range) == StepSnapshot(work, a, model, range)
  {
    assert [a][..0] == [];
    assert Apply(work, [], model, range) == work;
  }

  // ---------------------------------------------------- what the finished table says

  /** The rows quote, all over the range, the naive rule with the first price extended back. */
  ghost predicate Recovers(rows: map<int, Row>, snapshots: seq<Snapshot>, model: string, range: Range)
    requires Timed(snapshots)
  {
    forall t | range.from <= t < range.to :: Quotes(rows, t, Recovered(snapshots, model, range, t))
  }

  lemma OnceRecovers(snapshots: seq<Snapshot>, model: string, range: Range)
    requires InSequence(snapshots, range)
    ensures Recovers(Finish(Apply(NOTHING, snapshots, model, range).rows, range.to), snapshots, model, range)
  {
    var rows := Apply(NOTHING, snapshots, model, range).rows;
    hide Apply, InSequence, Quotes, Finish;
    forall t | range.from <= t < range.to ensures Quotes(Finish(rows, range.to), t, Recovered(snapshots, model, range, t)) {
      ApplyQuotes(snapshots, model, range, t);
      FinishQuotes(rows, range.to, t, Recovered(snapshots, model, range, t));
    }
  }

  /** A row that begins with the range quotes something there, where a single batch has nothing. */
  lemma DivergedMisquotes(rows: map<int, Row>, snapshots: seq<Snapshot>, model: string, range: Range, boundary: int)
    requires InSequence(snapshots, range) && range.from < range.to && Ordered(rows, range.from, boundary)
    requires Diverged(rows, Apply(NOTHING, snapshots, model, range), range.from, boundary)
    ensures !Recovers(Finish(rows, range.to), snapshots, model, range)
  {
    var work, from := Apply(NOTHING, snapshots, model, range), range.from;
    ApplyIsSound(snapshots, model, range);
    ApplyQuotes(snapshots, model, range, from);
    hide Apply;
    assert forall e | e in work.rows :: !Covers(e, work.rows[e], from);
    assert Recovered(snapshots, model, range, from).None?;
    var ended := Finish(rows, range.to);
    assert from in ended && Covers(from, ended[from], from);
    assert !Quotes(ended, from, None);
  }

  /**
   * For every list in sequence and every cut of it into batches: saving the last batch leaves rows that are all
   * closed and do not overlap, and they quote, at every instant of the range, the naive rule with the first price
   * extended back, exactly when no batch forgets.
   */
  lemma SavedBatchesRecoverIff(batches: seq<seq<Snapshot>>, model: string, range: Range)
    requires InSequence(Flatten(batches), range) && range.from < range.to
    ensures forall k :: 0 <= k < |batches| ==> Timed(batches[k])
    ensures Disjoint(TableRows(batches, model, range, true))
    ensures Recovers(TableRows(batches, model, range, true), Flatten(batches), model, range) <==> !Forgets(batches, model, range)
  {
    CutsCompare(batches, model, range);
    var all := Flatten(batches);
    var rows, boundary := SavedInBatches(batches, model, range), LastBoundary(all, range);
    assert Ordered(rows, range.from, boundary);
    hide Apply, Recovers, Disjoint, Finish, SavedInBatches, Forgets, Sound, Ordered, Flatten, Diverged;
    FinishIsDisjoint(rows, range.from, boundary, range.to);
    if Forgets(batches, model, range) { DivergedMisquotes(rows, all, model, range, boundary); }
    else { OnceRecovers(all, model, range); }
  }

  // ---------------------------------------------------- skipping the last ref

  /** Promotion copies the rows that have an end. */
  function Promoted(rows: map<int, Row>): map<int, Row> {
    map e | e in rows && rows[e].validUntil.Some? :: rows[e]
  }

  /** After a saved last batch promotion copies every row. */
  lemma FinishedIsPromoted(rows: map<int, Row>, to: int)
    ensures Promoted(Finish(rows, to)) == Finish(rows, to)
  {
  }

  lemma {:induction false} StartsInRange(snapshots: seq<Snapshot>, model: string, range: Range)
    requires Timed(snapshots) && range.from < range.to
    ensures forall e | e in Apply(NOTHING, snapshots, model, range).rows :: e < range.to
    decreases |snapshots|
  {
    if snapshots != [] {
      StartsInRange(snapshots[..|snapshots| - 1], model, range);
    }
  }

  lemma PromotedQuotes(rows: map<int, Row>, t: int, expected: Option<Quote>)
    requires Quotes(rows, t, expected)
    requires forall e :: !IsOpen(rows, e)
    ensures Quotes(Promoted(rows), t, expected)
  {
    forall e | e in rows ensures e in Promoted(rows) {
      assert !IsOpen(rows, e);
    }
    assert Promoted(rows) == rows;
  }

  lemma OpenIsNotPromoted(work: Work, from: int, boundary: int, e: int, expected: Option<Quote>)
    requires Sound(work, from, boundary) && IsOpen(work.rows, e)
    requires Quotes(work.rows, e, expected)
    ensures !Quotes(Promoted(work.rows), e, expected)
  {
    var promoted := Promoted(work.rows);
    assert Covers(e, work.rows[e], e) && expected.Some?;
    forall a | a in promoted ensures !Covers(a, promoted[a], e) {
      assert a != e;
    }
  }

  lemma OncePromotedRecoversIff(snapshots: seq<Snapshot>, model: string, range: Range)
    requires InSequence(snapshots, range) && range.from < range.to
    ensures var rows := Apply(NOTHING, snapshots, model, range).rows;
            Recovers(Promoted(rows), snapshots, model, range) <==> forall e :: !IsOpen(rows, e)
  {
    var work := Apply(NOTHING, snapshots, model, range);
    ApplyIsSound(snapshots, model, range);
    StartsInRange(snapshots, model, range);
    hide Apply, InSequence, Quotes, Promoted;
    if e :| IsOpen(work.rows, e) {
      assert range.from <= e < range.to;
      ApplyQuotes(snapshots, model, range, e);
      OpenIsNotPromoted(work, range.from, LastBoundary(snapshots, range), e, Recovered(snapshots, model, range, e));
    } else {
      forall t | range.from <= t < range.to ensures Quotes(Promoted(work.rows), t, Recovered(snapshots, model, range, t)) {
        ApplyQuotes(snapshots, model, range, t);
        PromotedQuotes(work.rows, t, Recovered(snapshots, model, range, t));
      }
    }
  }

  /** Where a cut diverged, the single batch has nothing to quote at the range start. */
  lemma NothingAtStart(snapshots: seq<Snapshot>, model: string, range: Range)
    requires InSequence(snapshots, range) && range.from < range.to && range.from !in Apply(NOTHING, snapshots, model, range).rows
    ensures Recovered(snapshots, model, range, range.from).None?
  {
    var rows := Apply(NOTHING, snapshots, model, range).rows;
    ApplyIsSound(snapshots, model, range);
    ApplyQuotes(snapshots, model, range, range.from);
    hide Apply;
    assert forall e | e in rows :: !Covers(e, rows[e], range.from);
  }

  /** A closed first row of a diverged cut is promoted, and quotes what was not in force. */
  lemma ClosedStartMisquotes(rows: map<int, Row>, snapshots: seq<Snapshot>, model: string, range: Range, boundary: int)
    requires InSequence(snapshots, range) && range.from < range.to && Ordered(rows, range.from, boundary)
    requires Diverged(rows, Apply(NOTHING, snapshots, model, range), range.from, boundary) && !IsOpen(rows, range.from)
    ensures !Recovers(Promoted(rows), snapshots, model, range)
  {
    NothingAtStart(snapshots, model, range);
    hide Apply;
    var promoted := Promoted(rows);
    assert range.from in promoted && Covers(range.from, promoted[range.from], range.from);
    assert !Quotes(promoted, range.from, None);
  }

  /** With an open first row nothing is promoted, which is right exactly when nothing is left standing. */
  lemma OpenStartRecoversIff(rows: map<int, Row>, snapshots: seq<Snapshot>, model: string, range: Range, boundary: int)
    requires InSequence(snapshots, range) && range.from < range.to && Ordered(rows, range.from, boundary) && IsOpen(rows, range.from)
    requires Apply(NOTHING, snapshots, model, range).seen
    ensures Recovers(Promoted(rows), snapshots, model, range) <==> Retracted(snapshots, model, range)
  {
    ForgottenIff(snapshots, model, range);
    var once := Apply(NOTHING, snapshots, model, range).rows;
    forall e | e in rows ensures e == range.from {
      assert range.from <= e;
    }
    assert Promoted(rows) == map[];
    hide Retracted, Promoted;
    EmptyOrNot(once);
    if e :| e in once {
      RowIsRecovered(snapshots, model, range, e);
      EmptyQuotes(e, Recovered(snapshots, model, range, e));
    } else {
      hide Quotes;
      forall t | range.from <= t < range.to ensures Quotes(map[], t, Recovered(snapshots, model, range, t)) {
        ApplyQuotes(snapshots, model, range, t);
      }
    }
  }

  lemma EmptyOrNot(rows: map<int, Row>)
    ensures rows == map[] || exists e :: e in rows
  {
    if forall e :: e !in rows { assert rows.Keys == {}; }
  }

  /** What the table must hold of a model for promotion to be right without the end of the last batch. */
  ghost predicate PromotableUnfinished(rows: map<int, Row>, batches: seq<seq<Snapshot>>, model: string, range: Range) {
    if Forgets(batches, model, range) then IsOpen(rows, range.from) && Retracted(Flatten(batches), model, range)
    else forall e :: !IsOpen(rows, e)
  }

  /**
   * When the last ref is skipped no row is closed at the range end. For every list in sequence and every cut,
   * promotion then recovers the model exactly when no row is open; or, if a batch forgot the model, when the row that
   * begins with the range is open, and so not promoted, and every price was taken back.
   */
  lemma SkippedEndRecoversIff(batches: seq<seq<Snapshot>>, model: string, range: Range)
    requires InSequence(Flatten(batches), range) && range.from < range.to
    ensures forall k :: 0 <= k < |batches| ==> Timed(batches[k])
    ensures var rows := TableRows(batches, model, range, false);
            Recovers(Promoted(rows), Flatten(batches), model, range) <==> PromotableUnfinished(rows, batches, model, range)
  {
    CutsCompare(batches, model, range);
    var all, rows := Flatten(batches), SavedInBatches(batches, model, range);
    var boundary := LastBoundary(all, range);
    assert Ordered(rows, range.from, boundary);
    hide Apply, InSequence, Recovers, Promoted, SavedInBatches, Forgets, Flatten, Sound, Load, IsOpen, Ordered, Retracted;
    if !Forgets(batches, model, range) { OncePromotedRecoversIff(all, model, range); }
    else if IsOpen(rows, range.from) { OpenStartRecoversIff(rows, all, model, range, boundary); }
    else { ClosedStartMisquotes(rows, all, model, range, boundary); }
  }

  /**
   * A forgotten model's new row, begun with the range and closed before the skipped last ref, is promoted although
   * nothing was in force at the range start.
   */
  lemma ForgottenRowIsPromoted(price: Price)
    ensures var range, present := Range(100, 1000), map["m" := Resolved("m", price)];
            var a, b := Snapshot(Ref("a", Some(100)), present), Snapshot(Ref("b", Some(100)), map[]);
            var c, d := Snapshot(Ref("c", Some(300)), present), Snapshot(Ref("d", Some(500)), map[]);
            var rows := map[100 := Row(Quote("m", Normalized(price)), Some(500), "c", 300)];
            && Timed([a, b]) && Timed([c, d]) && TableRows([[a, b], [c, d]], "m", range, false) == rows && Promoted(rows) == rows
            && Timed([a, b, c, d]) && Recovered([a, b, c, d], "m", range, 100) == None
  {
    var range, present := Range(100, 1000), map["m" := Resolved("m", price)];
    var a, b := Snapshot(Ref("a", Some(100)), present), Snapshot(Ref("b", Some(100)), map[]);
    var c, d := Snapshot(Ref("c", Some(300)), present), Snapshot(Ref("d", Some(500)), map[]);
    hide Normalized;
    ForgottenRow(a, b, c, d, price);
    var all := [a, b, c, d];
    assert FirstPriced([], "m") == None && [a][..0] == [];
    assert FirstPriced([a], "m") == Some(a) && all[..1] == [a];
    hide FirstPriced;
    FirstPricedStays(all, 1, "m");
    LastWord(all, "m", range, 100, 1);
  }

  lemma {:induction false} FirstPricedStays(snapshots: seq<Snapshot>, n: nat, model: string)
    requires n <= |snapshots| && FirstPriced(snapshots[..n], model).Some?
    ensures FirstPriced(snapshots, model) == FirstPriced(snapshots[..n], model)
    decreases |snapshots|
  {
    if n < |snapshots| {
      var last := |snapshots| - 1;
      assert snapshots[..last][..n] == snapshots[..n];
      FirstPricedStays(snapshots[..last], n, model);
    } else {
      assert snapshots[..n] == snapshots;
    }
  }

  lemma ForgottenRow(a: Snapshot, b: Snapshot, c: Snapshot, d: Snapshot, price: Price)
    requires a == Snapshot(Ref("a", Some(100)), map["m" := Resolved("m", price)]) && b == Snapshot(Ref("b", Some(100)), map[])
    requires c == Snapshot(Ref("c", Some(300)), map["m" := Resolved("m", price)]) && d == Snapshot(Ref("d", Some(500)), map[])
    ensures Timed([a, b]) && Timed([c, d])
    ensures SavedInBatches([[a, b], [c, d]], "m", Range(100, 1000)) == map[100 := Row(Quote("m", Normalized(price)), Some(500), "c", 300)]
  {
    var range := Range(100, 1000);
    hide Normalized;
    assert Load(map[]) == NOTHING;
    ApplyPair(NOTHING, a, b, "m", range);
    ApplyPair(NOTHING, c, d, "m", range);
    assert StepSnapshot(StepSnapshot(NOTHING, a, "m", range), b, "m", range).rows == map[];
    assert StepSnapshot(StepSnapshot(NOTHING, c, "m", range), d, "m", range).rows ==
      map[100 := Row(Quote("m", Normalized(price)), Some(500), "c", 300)];
    hide StepSnapshot, Apply, Load;
    SavedNext([], [a, b], "m", range);
    SavedNext([[a, b]], [c, d], "m", range);
    assert [] + [[a, b]] == [[a, b]] && [[a, b]] + [[c, d]] == [[a, b], [c, d]];
    assert SavedInBatches([], "m", range) == map[];
  }

  /** One priced snapshot and then a skipped last ref: the price is recovered nowhere. */
  lemma SkippedLastRefLosesPrice(price: Price)
    ensures var range, a := Range(100, 1000), Snapshot(Ref("a", Some(50)), map["m" := Resolved("m", price)]);
            && Timed([a])
            && TableRows([[a]], "m", range, false).Keys == {100} && Promoted(TableRows([[a]], "m", range, false)) == map[]
            && forall t | 100 <= t < 1000 :: Recovered([a], "m", range, t) == Some(Quote("m", Normalized(price)))
  {
    var range, a := Range(100, 1000), Snapshot(Ref("a", Some(50)), map["m" := Resolved("m", price)]);
    hide Normalized;
    ApplyOne(NOTHING, a, "m", range);
    assert [[a]][..0] == [] && SavedInBatches([], "m", range) == map[];
    assert Load(map[]) == NOTHING;
    assert SavedInBatches([[a]], "m", range) == StepSnapshot(NOTHING, a, "m", range).rows;
    assert [a][..0] == [];
    assert FirstPriced([], "m") == None && FirstPriced([a], "m") == Some(a);
  }
}

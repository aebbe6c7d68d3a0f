/**
 * Aggregation of priced usage events into per-model buckets
 * (apps/web/lib/cost-drivers.ts, `CostPeriodAccumulator`).
 */
module CostAccumulator {
  import opened Prelude

  /** Five buckets: input, output, cache read, cache creation, one-hour cache creation. */
  type Units = u: seq<int> | |u| == 5 witness [0, 0, 0, 0, 0]
  type Usd = u: seq<real> | |u| == 5 witness [0.0, 0.0, 0.0, 0.0, 0.0]

  const ZERO_UNITS: Units := [0, 0, 0, 0, 0]
  const ZERO_USD: Usd := [0.0, 0.0, 0.0, 0.0, 0.0]
  const CALCULATION_VERSION := "cost-v2"
  const MAX_SAFE_INTEGER := 9_007_199_254_740_991
  const TOLERANCE_USD := 0.00000001

  datatype Status = Priced | Estimated | Unpriced | Legacy | Unsupported

  datatype Key = Key(provider: string, model: Option<string>)

  datatype UsageEvent = UsageEvent(
    key: Key, inputTokens: int, outputTokens: int, cacheReadTokens: int, cacheCreationTokens: int,
    cacheCreation1hTokens: Option<int>, costUsd: real, status: Status, calculationVersion: string)

  /** An event with the cost of each bucket, when that could be reproduced. */
  datatype Row = Row(event: UsageEvent, componentsUsd: Option<Usd>)

  datatype Profile = Profile(key: Key, units: Units, usd: Usd, events: nat)

  datatype Coverage = Coverage(pricedEvents: nat, estimatedEvents: nat, unpricedEvents: nat, legacyEvents: nat)

  datatype Totals = Totals(
    costUsd: real, tokens: int, events: nat, coverage: Coverage,
    comparableCostUsd: real, comparableEvents: nat, legacyEvidenceEvents: nat)

  /** The profiles are kept in order of first appearance. */
  datatype CostPeriod = CostPeriod(totals: Totals, profiles: seq<Profile>, incompleteModels: set<Key>)

  const EMPTY := CostPeriod(Totals(0.0, 0, 0, Coverage(0, 0, 0, 0), 0.0, 0, 0), [], {})

  function TotalUnits(u: Units): int { u[0] + u[1] + u[2] + u[3] + u[4] }

  function TotalUsd(u: Usd): real { u[0] + u[1] + u[2] + u[3] + u[4] }

  function UnitsOf(e: UsageEvent): Units {
    var oneHour := if e.cacheCreation1hTokens.Some? then e.cacheCreation1hTokens.value else 0;
    [e.inputTokens, e.outputTokens, e.cacheReadTokens, e.cacheCreationTokens - oneHour, oneHour]
  }

  predicate Safe(n: int) { -MAX_SAFE_INTEGER <= n <= MAX_SAFE_INTEGER }

  /** The event's numbers are usable at all. */
  predicate ValidEvidence(e: UsageEvent) {
    && (forall i :: 0 <= i < 5 ==> Safe(UnitsOf(e)[i]) && UnitsOf(e)[i] >= 0)
    && e.costUsd >= 0.0
  }

  /** The stored amount is reproduced by its components, and no bucket costs anything without tokens. */
  predicate Comparable(row: Row) {
    && row.componentsUsd.Some?
    && row.event.status in {Priced, Estimated}
    && var components := row.componentsUsd.value;
       var difference := TotalUsd(components) - row.event.costUsd;
    && (forall i :: 0 <= i < 5 ==> components[i] >= 0.0)
    && -TOLERANCE_USD <= difference <= TOLERANCE_USD
    && (TotalUsd(components) == 0.0 ==> row.event.costUsd == 0.0)
    && (forall i :: 0 <= i < 5 ==> UnitsOf(row.event)[i] == 0 ==> components[i] == 0.0)
  }

  /** The components stretched so that they add up to the stored amount. */
  function Scaled(row: Row): Usd
    requires Comparable(row)
  {
    var c := row.componentsUsd.value;
    var scale := Scale(row.event.costUsd, TotalUsd(c));
    Stretched(c, scale)
  }

  function Stretched(c: Usd, scale: real): Usd {
    [c[0] * scale, c[1] * scale, c[2] * scale, c[3] * scale, c[4] * scale]
  }

  lemma StretchedTotal(c: Usd, scale: real)
    ensures TotalUsd(Stretched(c, scale)) == TotalUsd(c) * scale
  {
    Distributes(c[0], c[1], c[2], c[3], c[4], scale);
  }

  lemma StretchedBucket(c: Usd, scale: real, i: nat)
    requires i < 5 && scale >= 0.0 && c[i] >= 0.0
    ensures Stretched(c, scale)[i] >= 0.0
    ensures c[i] == 0.0 ==> Stretched(c, scale)[i] == 0.0
  {
    assert Stretched(c, scale)[i] == c[i] * scale;
  }

  function Scale(stored: real, computed: real): real {
    if computed == 0.0 then 1.0 else stored / computed
  }

  lemma ScaledTotal(row: Row)
    requires Comparable(row)
    ensures TotalUsd(Scaled(row)) == row.event.costUsd
  {
    var stored, computed := row.event.costUsd, TotalUsd(row.componentsUsd.value);
    StretchedTotal(row.componentsUsd.value, Scale(stored, computed));
    if computed != 0.0 {
      assert computed * (stored / computed) == stored;
    }
  }

  lemma Distributes(a: real, b: real, c: real, d: real, e: real, s: real)
    ensures a * s + b * s + c * s + d * s + e * s == (a + b + c + d + e) * s
  {
  }

  lemma ScaleNonNegative(stored: real, computed: real)
    requires stored >= 0.0 && computed >= 0.0
    ensures Scale(stored, computed) >= 0.0
  {
  }

  lemma ComponentsNonNegative(row: Row)
    requires Comparable(row)
    ensures TotalUsd(row.componentsUsd.value) >= 0.0
  {
    var c := row.componentsUsd.value;
    assert c[0] >= 0.0 && c[1] >= 0.0 && c[2] >= 0.0 && c[3] >= 0.0 && c[4] >= 0.0;
  }

  lemma ScaledBucket(row: Row, i: nat)
    requires Comparable(row) && row.event.costUsd >= 0.0 && i < 5
    ensures Scaled(row)[i] >= 0.0
    ensures UnitsOf(row.event)[i] == 0 ==> Scaled(row)[i] == 0.0
  {
    var c := row.componentsUsd.value;
    ComponentsNonNegative(row);
    ScaleNonNegative(row.event.costUsd, TotalUsd(c));
    StretchedBucket(c, Scale(row.event.costUsd, TotalUsd(c)), i);
  }

  function ProfileIndex(profiles: seq<Profile>, key: Key): (k: nat)
    ensures k <= |profiles|
    ensures k < |profiles| ==> profiles[k].key == key
    ensures forall j :: 0 <= j < k ==> profiles[j].key != key
  {
    if profiles == [] || profiles[0].key == key then 0 else 1 + ProfileIndex(profiles[1..], key)
  }

  function AddUnits(a: Units, b: Units): Units {
    [a[0] + b[0], a[1] + b[1], a[2] + b[2], a[3] + b[3], a[4] + b[4]]
  }

  function AddUsd(a: Usd, b: Usd): Usd {
    [a[0] + b[0], a[1] + b[1], a[2] + b[2], a[3] + b[3], a[4] + b[4]]
  }

  /** The profiles after one comparable row. */
  function AddToProfiles(profiles: seq<Profile>, row: Row): seq<Profile>
    requires Comparable(row)
  {
    var k := ProfileIndex(profiles, row.event.key);
    var base := if k < |profiles| then profiles[k] else Profile(row.event.key, ZERO_UNITS, ZERO_USD, 0);
    var updated := base.(units := AddUnits(base.units, UnitsOf(row.event)), usd := AddUsd(base.usd, Scaled(row)), events := base.events + 1);
    if k < |profiles| then profiles[k := updated] else profiles + [updated]
  }

  /** The totals once an event is counted, before its coverage is. */
  function Counted(t: Totals, e: UsageEvent): Totals {
    t.(tokens := t.tokens + TotalUnits(UnitsOf(e)), events := t.events + 1,
       legacyEvidenceEvents := t.legacyEvidenceEvents + (if e.status == Legacy || e.calculationVersion != CALCULATION_VERSION then 1 else 0),
       costUsd := t.costUsd + e.costUsd)
  }

  function Covered(c: Coverage, s: Status): Coverage {
    match s
    case Priced => c.(pricedEvents := c.pricedEvents + 1)
    case Estimated => c.(estimatedEvents := c.estimatedEvents + 1)
    case Unpriced => c.(unpricedEvents := c.unpricedEvents + 1)
    case Legacy => c.(legacyEvents := c.legacyEvents + 1)
    case Unsupported => c
  }

  predicate IsCounted(p: CostPeriod, row: Row) {
    ValidEvidence(row.event) && Safe(p.totals.tokens + TotalUnits(UnitsOf(row.event)))
  }

  /** One row added to a period; a rejected row may still have been counted. */
  function Added(p: CostPeriod, row: Row): CostPeriod {
    if !IsCounted(p, row) then p
    else
      var counted := Counted(p.totals, row.event);
      var covered := counted.(coverage := Covered(counted.coverage, row.event.status));
      if row.event.status == Unsupported then p.(totals := counted)
      else if !Comparable(row) then p.(totals := covered, incompleteModels := p.incompleteModels + {row.event.key})
      else p.(totals := covered.(comparableCostUsd := covered.comparableCostUsd + row.event.costUsd,
                                 comparableEvents := covered.comparableEvents + 1),
              profiles := AddToProfiles(p.profiles, row))
  }

  function Rejection(p: CostPeriod, row: Row): Option<string> {
    if !ValidEvidence(row.event) then Some("invalid_report_evidence")
    else if !IsCounted(p, row) then Some("report_token_total_out_of_range")
    else if row.event.status == Unsupported then Some("unsupported_report_cost_status")
    else None
  }

  class CostPeriodAccumulator {
    var profiles: seq<Profile>
    var incomplete: set<Key>
    var totals: Totals

    constructor ()
      ensures Snapshot() == EMPTY
    {
      profiles, incomplete, totals := [], {}, EMPTY.totals;
    }

    function Snapshot(): CostPeriod
      reads this
    {
      CostPeriod(totals, profiles, incomplete)
    }

    /** Finds or starts the model's profile and adds the row's buckets to it. */
    method AddToProfile(row: Row, units: Units)
      requires Comparable(row) && units == UnitsOf(row.event)
      modifies this`profiles
      ensures profiles == AddToProfiles(old(profiles), row)
    {
      var k := ProfileIndex(profiles, row.event.key);
      if k == |profiles| {
        profiles := profiles + [Profile(row.event.key, ZERO_UNITS, ZERO_USD, 0)];
      }
      hide UnitsOf, Scaled, Comparable;
      var profile, scaled := profiles[k], Scaled(row);
      var newUnits, newUsd := profile.units, profile.usd;
      for index := 0 to 5
        invariant |newUnits| == 5 && |newUsd| == 5
        invariant forall i :: 0 <= i < 5 ==> newUnits[i] == profile.units[i] + (if i < index then units[i] else 0)
        invariant forall i :: 0 <= i < 5 ==> newUsd[i] == profile.usd[i] + (if i < index then scaled[i] else 0.0)
      {
        newUnits := newUnits[index := newUnits[index] + units[index]];
        newUsd := newUsd[index := newUsd[index] + scaled[index]];
      }
      assert newUnits == AddUnits(profile.units, units);
      assert newUsd == AddUsd(profile.usd, scaled);
      profiles := profiles[k := profile.(units := newUnits, usd := newUsd, events := profile.events + 1)];
    }

    method Add(event: UsageEvent, breakdown: Option<Usd>) returns (error: Option<string>)
      modifies this
      ensures Snapshot() == Added(old(Snapshot()), Row(event, breakdown))
      ensures error == Rejection(old(Snapshot()), Row(event, breakdown))
    {
      var row := Row(event, breakdown);
      var units := UnitsOf(event);
      if !ValidEvidence(event) { return Some("invalid_report_evidence"); }
      if !Safe(totals.tokens + TotalUnits(units)) { return Some("report_token_total_out_of_range"); }
      totals := Counted(totals, event);
      if event.status == Unsupported { return Some("unsupported_report_cost_status"); }
      totals := totals.(coverage := Covered(totals.coverage, event.status));
      error := None;
      if !Comparable(row) {
        incomplete := incomplete + {event.key};
        return;
      }
      AddToProfile(row, units);
      totals := totals.(comparableCostUsd := totals.comparableCostUsd + event.costUsd,
                        comparableEvents := totals.comparableEvents + 1);
    }
  }

  // --------------------------------------------------------------- whole runs

  /** The period after a list of rows. */
  ghost function Accumulated(rows: seq<Row>): CostPeriod {
    if rows == [] then EMPTY else Added(Accumulated(rows[..|rows| - 1]), rows[|rows| - 1])
  }

  ghost predicate ValidBucket(p: Profile, i: nat)
    requires i < 5
  {
    p.units[i] >= 0 && p.usd[i] >= 0.0 && (p.units[i] == 0 ==> p.usd[i] == 0.0)
  }

  ghost predicate ValidProfile(p: Profile) {
    forall i :: 0 <= i < 5 ==> ValidBucket(p, i)
  }

  ghost predicate ValidPeriod(p: CostPeriod) {
    && (forall i, j :: 0 <= i < j < |p.profiles| ==> p.profiles[i].key != p.profiles[j].key)
    && (forall k :: 0 <= k < |p.profiles| ==> ValidProfile(p.profiles[k]))
    && p.totals.comparableCostUsd == UsdOutside(p.profiles, {})
  }

  /** The profiles' cost, leaving some models out. */
  ghost function UsdOutside(profiles: seq<Profile>, excluded: set<Key>): real {
    if profiles == [] then 0.0
    else
      var last := profiles[|profiles| - 1];
      UsdOutside(profiles[..|profiles| - 1], excluded) + (if last.key in excluded then 0.0 else TotalUsd(last.usd))
  }

  lemma {:induction false} UsdOutsideUpdate(profiles: seq<Profile>, k: nat, update: Profile, excluded: set<Key>)
    requires k < |profiles| && update.key == profiles[k].key
    ensures UsdOutside(profiles[k := update], excluded) == UsdOutside(profiles, excluded) +
      (if update.key in excluded then 0.0 else TotalUsd(update.usd) - TotalUsd(profiles[k].usd))
    decreases |profiles|
  {
    var last := |profiles| - 1;
    if k < last {
      assert profiles[k := update][..last] == profiles[..last][k := update];
      UsdOutsideUpdate(profiles[..last], k, update, excluded);
    } else {
      assert profiles[k := update][..last] == profiles[..last];
    }
  }

  lemma AddedUsd(profiles: seq<Profile>, row: Row, excluded: set<Key>)
    requires Comparable(row)
    ensures UsdOutside(AddToProfiles(profiles, row), excluded) ==
      UsdOutside(profiles, excluded) + (if row.event.key in excluded then 0.0 else row.event.costUsd)
  {
    var k := ProfileIndex(profiles, row.event.key);
    var after := AddToProfiles(profiles, row);
    ScaledTotal(row);
    var base := if k < |profiles| then profiles[k].usd else ZERO_USD;
    hide Comparable, Scaled, UnitsOf;
    AddUsdTotal(base, Scaled(row));
    if k < |profiles| {
      UsdOutsideUpdate(profiles, k, after[k], excluded);
    } else {
      assert after[..|profiles|] == profiles;
    }
  }

  lemma AddUsdTotal(a: Usd, b: Usd)
    ensures TotalUsd(AddUsd(a, b)) == TotalUsd(a) + TotalUsd(b)
  {
  }

  lemma AddedProfilesValid(profiles: seq<Profile>, row: Row, k: nat)
    requires Comparable(row) && ValidEvidence(row.event)
    requires forall j :: 0 <= j < |profiles| ==> ValidProfile(profiles[j])
    requires k < |AddToProfiles(profiles, row)|
    ensures ValidProfile(AddToProfiles(profiles, row)[k])
  {
    var place := ProfileIndex(profiles, row.event.key);
    if k == place {
      var base := if k < |profiles| then profiles[k] else Profile(row.event.key, ZERO_UNITS, ZERO_USD, 0);
      assert ValidProfile(base);
      forall i | 0 <= i < 5 ensures ValidBucket(AddToProfiles(profiles, row)[k], i) {
        assert ValidBucket(base, i);
        ScaledBucket(row, i);
      }
    } else {
      assert AddToProfiles(profiles, row)[k] == profiles[k];
    }
  }

  lemma AddedKeysDistinct(profiles: seq<Profile>, row: Row, i: nat, j: nat)
    requires Comparable(row)
    requires forall a, b :: 0 <= a < b < |profiles| ==> profiles[a].key != profiles[b].key
    requires i < j < |AddToProfiles(profiles, row)|
    ensures AddToProfiles(profiles, row)[i].key != AddToProfiles(profiles, row)[j].key
  {
  }

  /** Adding any row, accepted or not, keeps the period valid. */
  lemma AddedIsValid(p: CostPeriod, row: Row)
    requires ValidPeriod(p)
    ensures ValidPeriod(Added(p, row))
  {
    if IsCounted(p, row) && Comparable(row) {
      AddedUsd(p.profiles, row, {});
      var after := AddToProfiles(p.profiles, row);
      forall k | 0 <= k < |after| ensures ValidProfile(after[k]) {
        AddedProfilesValid(p.profiles, row, k);
      }
      forall i, j | 0 <= i < j < |after| ensures after[i].key != after[j].key {
        AddedKeysDistinct(p.profiles, row, i, j);
      }
    }
  }

  lemma {:induction false} AccumulatedIsValid(rows: seq<Row>)
    ensures ValidPeriod(Accumulated(rows))
    decreases |rows|
  {
    if rows != [] {
      AccumulatedIsValid(rows[..|rows| - 1]);
      AddedIsValid(Accumulated(rows[..|rows| - 1]), rows[|rows| - 1]);
    }
  }

  /** The stored cost of the counted rows that no profile outside `excluded` holds. */
  ghost function LeftOutUsd(rows: seq<Row>, excluded: set<Key>): real {
    if rows == [] then 0.0
    else
      var earlier, row := rows[..|rows| - 1], rows[|rows| - 1];
      LeftOutUsd(earlier, excluded) +
      (if IsCounted(Accumulated(earlier), row) && (!Comparable(row) || row.event.key in excluded)
       then row.event.costUsd else 0.0)
  }

  /** The total cost splits into the analysed profiles and exactly the rows left out. */
  lemma {:induction false} CostSplits(rows: seq<Row>, excluded: set<Key>)
    ensures Accumulated(rows).totals.costUsd ==
      UsdOutside(Accumulated(rows).profiles, excluded) + LeftOutUsd(rows, excluded)
    decreases |rows|
  {
    if rows != [] {
      var earlier, row := rows[..|rows| - 1], rows[|rows| - 1];
      CostSplits(earlier, excluded);
      if IsCounted(Accumulated(earlier), row) && Comparable(row) {
        AddedUsd(Accumulated(earlier).profiles, row, excluded);
      }
    }
  }

  // --------------------------------------------------- the report as sums over its rows

  /** The event's tokens; those cached for an hour are part of the cache creation. */
  function Tokens(e: UsageEvent): int { e.inputTokens + e.outputTokens + e.cacheReadTokens + e.cacheCreationTokens }

  function OneHour(e: UsageEvent): int { match e.cacheCreation1hTokens case Some(n) => n case None => 0 }

  /** What one of the five buckets of an event holds. */
  function Bucket(e: UsageEvent, i: nat): int {
    if i == 0 then e.inputTokens
    else if i == 1 then e.outputTokens
    else if i == 2 then e.cacheReadTokens
    else if i == 3 then e.cacheCreationTokens - OneHour(e)
    else OneHour(e)
  }

  /** Every bucket is a safe number that is not negative, and so is the cost. */
  predicate IsUsable(e: UsageEvent) {
    && 0 <= e.inputTokens <= 9_007_199_254_740_991 && 0 <= e.outputTokens <= 9_007_199_254_740_991
    && 0 <= e.cacheReadTokens <= 9_007_199_254_740_991 && 0 <= OneHour(e) <= 9_007_199_254_740_991
    && OneHour(e) <= e.cacheCreationTokens <= OneHour(e) + 9_007_199_254_740_991
    && e.costUsd >= 0.0
  }

  /** The parts of a row's cost that can be attributed: they are there, none is negative, they add up, and no empty bucket has one. */
  predicate IsAttributable(row: Row) {
    && (row.event.status == Priced || row.event.status == Estimated) && row.componentsUsd.Some?
    && var (c, e) := (row.componentsUsd.value, row.event);
       var sum := c[0] + c[1] + c[2] + c[3] + c[4];
    && c[0] >= 0.0 && c[1] >= 0.0 && c[2] >= 0.0 && c[3] >= 0.0 && c[4] >= 0.0
    && e.costUsd - 0.00000001 <= sum <= e.costUsd + 0.00000001 && (sum == 0.0 ==> e.costUsd == 0.0)
    && (e.inputTokens == 0 ==> c[0] == 0.0) && (e.outputTokens == 0 ==> c[1] == 0.0) && (e.cacheReadTokens == 0 ==> c[2] == 0.0)
    && (e.cacheCreationTokens == OneHour(e) ==> c[3] == 0.0) && (OneHour(e) == 0 ==> c[4] == 0.0)
  }

  lemma SameBuckets(e: UsageEvent)
    ensures forall i :: 0 <= i < 5 ==> UnitsOf(e)[i] == Bucket(e, i)
    ensures TotalUnits(UnitsOf(e)) == Tokens(e)
    ensures ValidEvidence(e) <==> IsUsable(e)
  {
    var u := UnitsOf(e);
    assert u[0] == e.inputTokens && u[1] == e.outputTokens && u[2] == e.cacheReadTokens;
    assert u[3] == e.cacheCreationTokens - OneHour(e) && u[4] == OneHour(e);
  }

  lemma ComparableIff(row: Row)
    ensures Comparable(row) <==> IsAttributable(row)
  {
    var u, e := UnitsOf(row.event), row.event;
    assert u[0] == e.inputTokens && u[1] == e.outputTokens && u[2] == e.cacheReadTokens;
    assert u[3] == e.cacheCreationTokens - OneHour(e) && u[4] == OneHour(e);
    var s := row.event.status;
    assert s in {Priced, Estimated} <==> s == Priced || s == Estimated;
    if row.componentsUsd.Some? && forall i :: 0 <= i < 5 ==> row.componentsUsd.value[i] >= 0.0 {
      var c := row.componentsUsd.value;
      assert c[0] >= 0.0 && c[1] >= 0.0 && c[2] >= 0.0 && c[3] >= 0.0 && c[4] >= 0.0;
    }
  }

  function SumTokens(rows: seq<Row>): int { if rows == [] then 0 else SumTokens(rows[..|rows| - 1]) + Tokens(rows[|rows| - 1].event) }

  function SumCost(rows: seq<Row>): real { if rows == [] then 0.0 else SumCost(rows[..|rows| - 1]) + rows[|rows| - 1].event.costUsd }

  function Where(rows: seq<Row>, p: Row -> bool): seq<Row> {
    if rows == [] then []
    else Where(rows[..|rows| - 1], p) + if p(rows[|rows| - 1]) then [rows[|rows| - 1]] else []
  }

  /** The rows that count: usable ones, as long as the tokens add up to a safe number. */
  function CountedRows(rows: seq<Row>): seq<Row> {
    if rows == [] then []
    else
      var earlier, row := CountedRows(rows[..|rows| - 1]), rows[|rows| - 1];
      var tokens := SumTokens(earlier) + Tokens(row.event);
      earlier + if IsUsable(row.event) && -9_007_199_254_740_991 <= tokens <= 9_007_199_254_740_991 then [row] else []
  }

  function HasStatus(status: Status): Row -> bool { (row: Row) => row.event.status == status }

  function IsLegacyEvidence(): Row -> bool { (row: Row) => row.event.status == Legacy || row.event.calculationVersion != "cost-v2" }

  function IsAttributed(): Row -> bool { (row: Row) => IsAttributable(row) }

  function IsLeftOut(): Row -> bool { (row: Row) => row.event.status != Unsupported && !IsAttributable(row) }

  /** The totals are sums and numbers of the rows that count. */
  ghost predicate AreTotalsOf(totals: Totals, rows: seq<Row>) {
    && totals.events == |rows| && totals.tokens == SumTokens(rows) && totals.costUsd == SumCost(rows)
    && totals.coverage.pricedEvents == |Where(rows, HasStatus(Priced))|
    && totals.coverage.estimatedEvents == |Where(rows, HasStatus(Estimated))|
    && totals.coverage.unpricedEvents == |Where(rows, HasStatus(Unpriced))|
    && totals.coverage.legacyEvents == |Where(rows, HasStatus(Legacy))|
    && totals.legacyEvidenceEvents == |Where(rows, IsLegacyEvidence())|
    && totals.comparableEvents == |Where(rows, IsAttributed())|
    && totals.comparableCostUsd == SumCost(Where(rows, IsAttributed()))
  }

  lemma WhereNext(rows: seq<Row>, row: Row, p: Row -> bool)
    ensures Where(rows + [row], p) == Where(rows, p) + if p(row) then [row] else []
  {
    assert (rows + [row])[..|rows|] == rows;
  }

  lemma SumsNext(rows: seq<Row>, row: Row)
    ensures SumTokens(rows + [row]) == SumTokens(rows) + Tokens(row.event) && SumCost(rows + [row]) == SumCost(rows) + row.event.costUsd
  {
    assert (rows + [row])[..|rows|] == rows;
  }

  /** How a row that counts moves the totals on. */
  lemma TotalsMove(p: CostPeriod, row: Row)
    requires IsCounted(p, row)
    ensures var (t, u, e, s) := (p.totals, Added(p, row).totals, row.event, row.event.status);
            && u.events == t.events + 1 && u.tokens == t.tokens + Tokens(e) && u.costUsd == t.costUsd + e.costUsd
            && u.coverage.pricedEvents == t.coverage.pricedEvents + (if s == Priced then 1 else 0)
            && u.coverage.estimatedEvents == t.coverage.estimatedEvents + (if s == Estimated then 1 else 0)
            && u.coverage.unpricedEvents == t.coverage.unpricedEvents + (if s == Unpriced then 1 else 0)
            && u.coverage.legacyEvents == t.coverage.legacyEvents + (if s == Legacy then 1 else 0)
            && u.legacyEvidenceEvents == t.legacyEvidenceEvents + (if s == Legacy || e.calculationVersion != "cost-v2" then 1 else 0)
            && u.comparableEvents == t.comparableEvents + (if IsAttributable(row) then 1 else 0)
            && u.comparableCostUsd == t.comparableCostUsd + (if IsAttributable(row) then e.costUsd else 0.0)
  {
    SameBuckets(row.event);
    ComparableIff(row);
    if Comparable(row) { ComparableIsSupported(row); }
    hide Comparable, IsAttributable, AddToProfiles, UnitsOf, TotalUnits, ValidEvidence, IsUsable;
  }

  lemma TotalsNext(p: CostPeriod, rows: seq<Row>, row: Row)
    requires AreTotalsOf(p.totals, rows) && IsCounted(p, row)
    ensures AreTotalsOf(Added(p, row).totals, rows + [row])
  {
    SumsNext(rows, row);
    NumberNext(rows, row, HasStatus(Priced));
    NumberNext(rows, row, HasStatus(Estimated));
    NumberNext(rows, row, HasStatus(Unpriced));
    NumberNext(rows, row, HasStatus(Legacy));
    NumberNext(rows, row, IsLegacyEvidence());
    NumberNext(rows, row, IsAttributed());
    TotalsMove(p, row);
    hide Where, SumTokens, SumCost, Tokens, IsAttributable, Added, IsCounted;
  }

  lemma NumberNext(rows: seq<Row>, row: Row, p: Row -> bool)
    ensures |Where(rows + [row], p)| == |Where(rows, p)| + if p(row) then 1 else 0
    ensures SumCost(Where(rows + [row], p)) == SumCost(Where(rows, p)) + if p(row) then row.event.costUsd else 0.0
  {
    WhereNext(rows, row, p);
    hide Where;
    SumsNext(Where(rows, p), row);
    assert Where(rows, p) + [] == Where(rows, p);
  }

  lemma CountedNext(rows: seq<Row>, row: Row)
    requires Accumulated(rows).totals.tokens == SumTokens(CountedRows(rows))
    ensures CountedRows(rows + [row]) == if IsCounted(Accumulated(rows), row) then CountedRows(rows) + [row] else CountedRows(rows)
    ensures Accumulated(rows + [row]) == Added(Accumulated(rows), row)
  {
    assert (rows + [row])[..|rows|] == rows;
    SameBuckets(row.event);
    hide IsUsable, Tokens, TotalUnits, UnitsOf, ValidEvidence, Comparable, IsAttributable, Added;
    assert CountedRows(rows) + [] == CountedRows(rows);
  }

  /** The models left out are those of the rows left out. */
  ghost predicate AreLeftOut(models: set<Key>, rows: seq<Row>) {
    forall key: Key :: key in models <==> exists row :: row in Where(rows, IsLeftOut()) && row.event.key == key
  }

  lemma LeftOutNext(p: CostPeriod, rows: seq<Row>, row: Row)
    requires AreLeftOut(p.incompleteModels, rows) && IsCounted(p, row)
    ensures AreLeftOut(Added(p, row).incompleteModels, rows + [row])
  {
    ComparableIff(row);
    if Comparable(row) { ComparableIsSupported(row); }
    WhereNext(rows, row, IsLeftOut());
    hide Where, Comparable, IsAttributable, AddToProfiles, ValidEvidence, UnitsOf, TotalUnits;
    var before, after := Where(rows, IsLeftOut()), Where(rows + [row], IsLeftOut());
    assert IsLeftOut()(row) ==> row in after;
    assert forall r :: r in before ==> r in after;
  }

  /** After any list of rows the totals are the sums and numbers of those that count, and the models left out are theirs. */
  lemma {:induction false} TotalsAreSums(rows: seq<Row>)
    ensures AreTotalsOf(Accumulated(rows).totals, CountedRows(rows))
    ensures AreLeftOut(Accumulated(rows).incompleteModels, CountedRows(rows))
    decreases |rows|
  {
    if rows != [] {
      var earlier, row := rows[..|rows| - 1], rows[|rows| - 1];
      TotalsAreSums(earlier);
      assert rows == earlier + [row];
      CountedNext(earlier, row);
      if IsCounted(Accumulated(earlier), row) {
        TotalsNext(Accumulated(earlier), CountedRows(earlier), row);
        LeftOutNext(Accumulated(earlier), CountedRows(earlier), row);
      }
      hide AreTotalsOf, AreLeftOut, IsCounted, Accumulated, CountedRows;
    }
  }

  lemma TokensAreSums(rows: seq<Row>)
    ensures Accumulated(rows).totals.tokens == SumTokens(CountedRows(rows))
  {
    TotalsAreSums(rows);
    hide Accumulated, CountedRows, AreLeftOut, Where, SumTokens, SumCost;
  }

  /** What an attributable row adds to a bucket's cost: its part, stretched so that the parts add up to the stored cost. */
  function Share(row: Row, i: nat): real
    requires IsAttributable(row) && i < 5
  {
    var c := row.componentsUsd.value;
    var sum := c[0] + c[1] + c[2] + c[3] + c[4];
    if sum == 0.0 then c[i] else c[i] * (row.event.costUsd / sum)
  }

  function SumBucket(rows: seq<Row>, i: nat): int {
    if rows == [] then 0 else SumBucket(rows[..|rows| - 1], i) + Bucket(rows[|rows| - 1].event, i)
  }

  function SumShare(rows: seq<Row>, i: nat): real
    requires i < 5 && forall k :: 0 <= k < |rows| ==> IsAttributable(rows[k])
  {
    if rows == [] then 0.0 else SumShare(rows[..|rows| - 1], i) + Share(rows[|rows| - 1], i)
  }

  function IsOfModel(key: Key): Row -> bool { (row: Row) => IsAttributable(row) && row.event.key == key }

  lemma {:induction false} WhereHolds(rows: seq<Row>, p: Row -> bool)
    ensures forall k :: 0 <= k < |Where(rows, p)| ==> p(Where(rows, p)[k])
    decreases |rows|
  {
    if rows != [] { WhereHolds(rows[..|rows| - 1], p); }
  }

  /** The model has a profile exactly if it has rows, and that profile sums them bucket by bucket. */
  ghost predicate IsProfileOf(profiles: seq<Profile>, key: Key, rows: seq<Row>)
    requires forall k :: 0 <= k < |rows| ==> IsAttributable(rows[k])
  {
    var k := ProfileIndex(profiles, key);
    && (k < |profiles| <==> rows != [])
    && (k < |profiles| ==> profiles[k].events == |rows|)
    && (k < |profiles| ==> forall i :: 0 <= i < 5 ==> profiles[k].units[i] == SumBucket(rows, i) && profiles[k].usd[i] == SumShare(rows, i))
  }

  lemma IndexAfter(profiles: seq<Profile>, row: Row, key: Key)
    requires Comparable(row)
    ensures var (before, after) := (ProfileIndex(profiles, key), AddToProfiles(profiles, row));
            if key == row.event.key then
              ProfileIndex(after, key) == before && before < |after|
            else if before < |profiles| then ProfileIndex(after, key) == before && after[before] == profiles[before]
            else ProfileIndex(after, key) == |after|
  {
    hide Scaled, UnitsOf, Comparable;
    var after, k := AddToProfiles(profiles, row), ProfileIndex(profiles, row.event.key);
    assert |after| == (if k < |profiles| then |profiles| else |profiles| + 1) && after[k].key == row.event.key;
    assert forall j :: 0 <= j < |profiles| && j != k ==> after[j] == profiles[j];
    hide AddToProfiles;
    IndexMoves(profiles, after, k, row.event.key, key);
  }

  lemma IndexMoves(profiles: seq<Profile>, after: seq<Profile>, k: nat, own: Key, key: Key)
    requires k == ProfileIndex(profiles, own) && |after| == if k < |profiles| then |profiles| else |profiles| + 1
    requires after[k].key == own && forall j :: 0 <= j < |profiles| && j != k ==> after[j] == profiles[j]
    ensures var before := ProfileIndex(profiles, key);
            if key == own then ProfileIndex(after, key) == before && before < |after|
            else if before < |profiles| then ProfileIndex(after, key) == before && after[before] == profiles[before]
            else ProfileIndex(after, key) == |after|
  {
    FirstIndex(after, key);
    FirstIndex(profiles, key);
    assert ProfileIndex(profiles, key) <= |profiles|;
  }

  lemma FirstIndex(profiles: seq<Profile>, key: Key)
    ensures forall k :: 0 <= k < |profiles| && profiles[k].key == key && (forall j :: 0 <= j < k ==> profiles[j].key != key) ==>
              ProfileIndex(profiles, key) == k
    ensures (forall j :: 0 <= j < |profiles| ==> profiles[j].key != key) ==> ProfileIndex(profiles, key) == |profiles|
  {
  }

  lemma ProfileNext(profiles: seq<Profile>, row: Row, rows: seq<Row>)
    requires IsAttributable(row) && Comparable(row) && forall k :: 0 <= k < |rows| ==> IsAttributable(rows[k])
    requires IsProfileOf(profiles, row.event.key, rows)
    ensures IsProfileOf(AddToProfiles(profiles, row), row.event.key, rows + [row])
  {
    var key := row.event.key;
    var k, after := ProfileIndex(profiles, key), AddToProfiles(profiles, row);
    IndexAfter(profiles, row, key);
    SameBuckets(row.event);
    assert (rows + [row])[..|rows|] == rows;
    forall i | 0 <= i < 5
      ensures after[k].units[i] == SumBucket(rows + [row], i) && after[k].usd[i] == SumShare(rows + [row], i)
    {
      ScaledIsShare(row, i);
      hide Share, Scaled, IsAttributable, Comparable, UnitsOf;
    }
    hide Share, Scaled, IsAttributable, Comparable, UnitsOf;
  }

  lemma ScaledIsShare(row: Row, i: nat)
    requires IsAttributable(row) && Comparable(row) && i < 5
    ensures Scaled(row)[i] == Share(row, i)
  {
    var c := row.componentsUsd.value;
    assert c[i] * 1.0 == c[i];
  }

  /** After any list of rows a model's profile sums, bucket by bucket, the model's attributable rows that count. */
  lemma {:induction false} ProfilesAreSums(rows: seq<Row>, key: Key)
    ensures var own := Where(CountedRows(rows), IsOfModel(key));
            && (forall k :: 0 <= k < |own| ==> IsAttributable(own[k]))
            && IsProfileOf(Accumulated(rows).profiles, key, own)
    decreases |rows|
  {
    WhereHolds(CountedRows(rows), IsOfModel(key));
    if rows != [] {
      var earlier, row := rows[..|rows| - 1], rows[|rows| - 1];
      assert rows == earlier + [row];
      TokensAreSums(earlier);
      hide IsProfileOf, IsAttributable, Where, Accumulated, CountedRows, IsCounted, Added;
      ProfilesAreSums(earlier, key);
      CountedNext(earlier, row);
      OwnRowsNext(CountedRows(earlier), row, key);
      if IsCounted(Accumulated(earlier), row) {
        AddedProfile(Accumulated(earlier), row, key, Where(CountedRows(earlier), IsOfModel(key)));
      }
    }
  }

  lemma OwnRowsNext(rows: seq<Row>, row: Row, key: Key)
    ensures Where(rows + [row], IsOfModel(key)) ==
      if IsAttributable(row) && row.event.key == key then Where(rows, IsOfModel(key)) + [row] else Where(rows, IsOfModel(key))
  {
    WhereNext(rows, row, IsOfModel(key));
    hide Where, IsAttributable;
    assert Where(rows, IsOfModel(key)) + [] == Where(rows, IsOfModel(key));
  }

  lemma AddedProfile(p: CostPeriod, row: Row, key: Key, rows: seq<Row>)
    requires IsCounted(p, row) && (forall k :: 0 <= k < |rows| ==> IsAttributable(rows[k]))
    requires IsProfileOf(p.profiles, key, rows)
    ensures IsAttributable(row) && row.event.key == key ==> IsProfileOf(Added(p, row).profiles, key, rows + [row])
    ensures !(IsAttributable(row) && row.event.key == key) ==> IsProfileOf(Added(p, row).profiles, key, rows)
  {
    ComparableIff(row);
    if Comparable(row) { ComparableIsSupported(row); }
    hide Comparable, IsAttributable, AddToProfiles, IsProfileOf, ValidEvidence, UnitsOf, TotalUnits;
    if Comparable(row) {
      if row.event.key == key { ProfileNext(p.profiles, row, rows); } else { OtherProfileStays(p.profiles, row, key, rows); }
    }
  }

  lemma ComparableIsSupported(row: Row)
    requires Comparable(row)
    ensures row.event.status != Unsupported
  {
  }

  lemma OtherProfileStays(profiles: seq<Profile>, row: Row, key: Key, rows: seq<Row>)
    requires Comparable(row) && key != row.event.key && forall k :: 0 <= k < |rows| ==> IsAttributable(rows[k])
    requires IsProfileOf(profiles, key, rows)
    ensures IsProfileOf(AddToProfiles(profiles, row), key, rows)
  {
    IndexAfter(profiles, row, key);
    hide AddToProfiles, IsAttributable, Comparable, Share;
  }

  /** What a rejected row is told. */
  lemma RejectionMeans(rows: seq<Row>, row: Row)
    ensures var (error, tokens) := (Rejection(Accumulated(rows), row), SumTokens(CountedRows(rows)) + Tokens(row.event));
            error == if !IsUsable(row.event) then Some("invalid_report_evidence")
                     else if tokens > 9_007_199_254_740_991 then Some("report_token_total_out_of_range")
                     else if row.event.status == Unsupported then Some("unsupported_report_cost_status")
                     else None
  {
    TotalsAreSums(rows);
    SameBuckets(row.event);
    TokensNotNegative(rows);
    hide UnitsOf, TotalUnits;
  }

  lemma {:induction false} TokensNotNegative(rows: seq<Row>)
    ensures SumTokens(CountedRows(rows)) >= 0
    decreases |rows|
  {
    if rows != [] {
      var counted := CountedRows(rows[..|rows| - 1]);
      TokensNotNegative(rows[..|rows| - 1]);
      SumsNext(counted, rows[|rows| - 1]);
      assert counted + [] == counted;
    }
  }

  // ------------------------------------------------- what is left when models are excluded

  /** The profiles' events and units, leaving some models out. */
  ghost function EventsOutside(profiles: seq<Profile>, excluded: set<Key>): int {
    if profiles == [] then 0
    else
      var last := profiles[|profiles| - 1];
      EventsOutside(profiles[..|profiles| - 1], excluded) + (if last.key in excluded then 0 else last.events)
  }

  ghost function UnitsOutside(profiles: seq<Profile>, excluded: set<Key>): int {
    if profiles == [] then 0
    else
      var last := profiles[|profiles| - 1];
      UnitsOutside(profiles[..|profiles| - 1], excluded) + (if last.key in excluded then 0 else TotalUnits(last.units))
  }

  lemma {:induction false} OutsideUpdate(profiles: seq<Profile>, k: nat, update: Profile, excluded: set<Key>)
    requires k < |profiles| && update.key == profiles[k].key
    ensures EventsOutside(profiles[k := update], excluded) == EventsOutside(profiles, excluded) +
      (if update.key in excluded then 0 else update.events - profiles[k].events)
    ensures UnitsOutside(profiles[k := update], excluded) == UnitsOutside(profiles, excluded) +
      (if update.key in excluded then 0 else TotalUnits(update.units) - TotalUnits(profiles[k].units))
    decreases |profiles|
  {
    var last := |profiles| - 1;
    if k < last {
      assert profiles[k := update][..last] == profiles[..last][k := update];
      OutsideUpdate(profiles[..last], k, update, excluded);
    } else {
      assert profiles[k := update][..last] == profiles[..last];
    }
  }

  lemma AddedOutside(profiles: seq<Profile>, row: Row, excluded: set<Key>)
    requires Comparable(row)
    ensures EventsOutside(AddToProfiles(profiles, row), excluded) ==
      EventsOutside(profiles, excluded) + (if row.event.key in excluded then 0 else 1)
    ensures UnitsOutside(AddToProfiles(profiles, row), excluded) ==
      UnitsOutside(profiles, excluded) + (if row.event.key in excluded then 0 else Tokens(row.event))
  {
    var k := ProfileIndex(profiles, row.event.key);
    var after := AddToProfiles(profiles, row);
    SameBuckets(row.event);
    var base := if k < |profiles| then profiles[k].units else ZERO_UNITS;
    hide Comparable, Scaled, UnitsOf, Tokens;
    AddUnitsTotal(base, UnitsOf(row.event));
    if k < |profiles| {
      OutsideUpdate(profiles, k, after[k], excluded);
    } else {
      assert after[..|profiles|] == profiles;
    }
  }

  lemma AddUnitsTotal(a: Units, b: Units)
    ensures TotalUnits(AddUnits(a, b)) == TotalUnits(a) + TotalUnits(b)
  {
  }

  function IsKept(excluded: set<Key>): Row -> bool { (row: Row) => IsAttributable(row) && row.event.key !in excluded }

  lemma KeptNext(p: CostPeriod, row: Row, excluded: set<Key>)
    requires IsCounted(p, row)
    ensures var (before, after, kept) := (p.profiles, Added(p, row).profiles, IsKept(excluded)(row));
            && UsdOutside(after, excluded) == UsdOutside(before, excluded) + (if kept then row.event.costUsd else 0.0)
            && EventsOutside(after, excluded) == EventsOutside(before, excluded) + (if kept then 1 else 0)
            && UnitsOutside(after, excluded) == UnitsOutside(before, excluded) + (if kept then Tokens(row.event) else 0)
  {
    ComparableIff(row);
    if Comparable(row) {
      ComparableIsSupported(row);
      AddedUsd(p.profiles, row, excluded);
      AddedOutside(p.profiles, row, excluded);
    }
    hide Comparable, IsAttributable, AddToProfiles, UsdOutside, EventsOutside, UnitsOutside, ValidEvidence, UnitsOf, TotalUnits;
  }

  /** Cost, events and tokens of the profiles kept are those of the attributable rows of the models kept. */
  lemma {:induction false} KeptSums(rows: seq<Row>, excluded: set<Key>)
    ensures var (profiles, kept) := (Accumulated(rows).profiles, Where(CountedRows(rows), IsKept(excluded)));
            && UsdOutside(profiles, excluded) == SumCost(kept)
            && EventsOutside(profiles, excluded) == |kept|
            && UnitsOutside(profiles, excluded) == SumTokens(kept)
    decreases |rows|
  {
    if rows != [] {
      var earlier, row := rows[..|rows| - 1], rows[|rows| - 1];
      assert rows == earlier + [row];
      TokensAreSums(earlier);
      hide Accumulated, CountedRows, Where, Added, IsCounted, UsdOutside, EventsOutside, UnitsOutside, SumTokens, SumCost, IsAttributable;
      KeptSums(earlier, excluded);
      CountedNext(earlier, row);
      WhereNext(CountedRows(earlier), row, IsKept(excluded));
      var kept := Where(CountedRows(earlier), IsKept(excluded));
      SumsNext(kept, row);
      assert kept + [] == kept;
      if IsCounted(Accumulated(earlier), row) { KeptNext(Accumulated(earlier), row, excluded); }
    }
  }
}

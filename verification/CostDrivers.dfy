/**
 * Attribution of a cost change to five drivers
 * (apps/web/lib/cost-drivers.ts, `factors`, `decomposeCostChange`, `displayCostDrivers`).
 */
module CostDrivers {
  import opened Prelude
  import opened CostAccumulator
  import Shapley = CostShapley

  const OUTPUT := 1

  datatype Factors = Factors(share: real, output: real, cache: Usd, rates: Usd)

  function Or(profile: Option<Profile>): Profile {
    match profile
    case Some(p) => p
    case None => Profile(Key("", None), ZERO_UNITS, ZERO_USD, 0)
  }

  function InputUnits(u: Units): int { TotalUnits(u) - u[OUTPUT] }

  /** Part of a whole, or the same part on the other side when this side has nothing. */
  function ShareOf(part: int, whole: int, otherPart: int, otherWhole: int, fallback: real): real {
    if whole > 0 then part as real / whole as real
    else if otherWhole > 0 then otherPart as real / otherWhole as real
    else fallback
  }

  function CacheShare(own: Units, other: Units, i: nat): real
    requires i < 5
  {
    if i == OUTPUT then 0.0
    else ShareOf(own[i], InputUnits(own), other[i], InputUnits(other), if i == 0 then 1.0 else 0.0)
  }

  function Rate(own: Profile, other: Profile, i: nat): real
    requires i < 5
  {
    if own.units[i] > 0 then own.usd[i] / own.units[i] as real
    else if other.units[i] > 0 then other.usd[i] / other.units[i] as real
    else 0.0
  }

  /** One model's factors on one side; what this side did not observe is borrowed from the other. */
  function FactorsOf(profile: Option<Profile>, other: Option<Profile>, total: int, otherTotal: int): Factors {
    var own, alt := Or(profile), Or(other);
    var units, altUnits := TotalUnits(own.units), TotalUnits(alt.units);
    Factors(
      ShareOf(units, total, altUnits, otherTotal, 0.0),
      ShareOf(own.units[OUTPUT], units, alt.units[OUTPUT], altUnits, 0.0),
      seq(5, i requires 0 <= i < 5 => CacheShare(own.units, alt.units, i)),
      seq(5, i requires 0 <= i < 5 => Rate(own, alt, i)))
  }

  method ComputeFactors(profile: Option<Profile>, other: Option<Profile>, total: int, otherTotal: int) returns (f: Factors)
    ensures f == FactorsOf(profile, other, total, otherTotal)
  {
    var own, alt := Or(profile), Or(other);
    var units, altUnits := TotalUnits(own.units), TotalUnits(alt.units);
    var input, altInput := units - own.units[OUTPUT], altUnits - alt.units[OUTPUT];
    var cache, rates := ZERO_USD, ZERO_USD;
    for index := 0 to 5
      invariant |cache| == 5 && |rates| == 5
      invariant forall i :: 0 <= i < index ==> cache[i] == CacheShare(own.units, alt.units, i)
      invariant forall i :: index <= i < 5 ==> cache[i] == 0.0
      invariant forall i :: 0 <= i < index ==> rates[i] == Rate(own, alt, i)
    {
      if index != OUTPUT {
        cache := cache[index := ShareOf(own.units[index], input, alt.units[index], altInput, if index == 0 then 1.0 else 0.0)];
      }
      rates := rates[index := Rate(own, alt, index)];
    }
    f := Factors(
      ShareOf(units, total, altUnits, otherTotal, 0.0),
      ShareOf(own.units[OUTPUT], units, alt.units[OUTPUT], altUnits, 0.0),
      cache, rates);
    assert cache == FactorsOf(profile, other, total, otherTotal).cache;
    assert rates == FactorsOf(profile, other, total, otherTotal).rates;
  }

  // ------------------------------------------------------- the subset table

  function InputRate(cache: Factors, rates: Factors): real {
    cache.cache[0] * rates.rates[0] + cache.cache[1] * rates.rates[1] + cache.cache[2] * rates.rates[2]
    + cache.cache[3] * rates.rates[3] + cache.cache[4] * rates.rates[4]
  }

  /** The cost per unit of volume of one model, each factor taken from one of the two sides. */
  function Term(mix: Factors, output: Factors, cache: Factors, rates: Factors): real {
    mix.share * ((1.0 - output.output) * InputRate(cache, rates) + output.output * rates.rates[OUTPUT])
  }

  type FactorPair = (Factors, Factors)

  function Pick(pair: FactorPair, mask: nat, bit: nat): Factors
    requires bit < 5
  {
    if Shapley.HasBit(mask, bit) then pair.1 else pair.0
  }

  function PairTerm(pair: FactorPair, mask: nat): real {
    Term(Pick(pair, mask, 1), Pick(pair, mask, 2), Pick(pair, mask, 3), Pick(pair, mask, 4))
  }

  function SumTerms(pairs: seq<FactorPair>, mask: nat): real {
    if pairs == [] then 0.0 else SumTerms(pairs[..|pairs| - 1], mask) + PairTerm(pairs[|pairs| - 1], mask)
  }

  function SubsetValue(pairs: seq<FactorPair>, oldTotal: int, newTotal: int, mask: nat): real {
    (if Shapley.HasBit(mask, 0) then newTotal else oldTotal) as real * SumTerms(pairs, mask)
  }

  function Table(pairs: seq<FactorPair>, oldTotal: int, newTotal: int): Shapley.SubsetTable {
    seq(32, mask requires 0 <= mask < 32 => SubsetValue(pairs, oldTotal, newTotal, mask))
  }

  // -------------------------------------------------------- the two periods

  function Kept(profiles: seq<Profile>, excluded: set<Key>): seq<Profile> {
    if profiles == [] then []
    else
      var last := profiles[|profiles| - 1];
      Kept(profiles[..|profiles| - 1], excluded) + (if last.key in excluded then [] else [last])
  }

  function Keys(profiles: seq<Profile>): seq<Key> {
    seq(|profiles|, i requires 0 <= i < |profiles| => profiles[i].key)
  }

  function Find(profiles: seq<Profile>, key: Key): Option<Profile> {
    var k := ProfileIndex(profiles, key);
    if k < |profiles| then Some(profiles[k]) else None
  }

  function UnitsTotal(profiles: seq<Profile>): int {
    if profiles == [] then 0 else UnitsTotal(profiles[..|profiles| - 1]) + TotalUnits(profiles[|profiles| - 1].units)
  }

  function UsdTotal(profiles: seq<Profile>): real {
    if profiles == [] then 0.0 else UsdTotal(profiles[..|profiles| - 1]) + TotalUsd(profiles[|profiles| - 1].usd)
  }

  function EventsTotal(profiles: seq<Profile>): nat {
    if profiles == [] then 0 else EventsTotal(profiles[..|profiles| - 1]) + profiles[|profiles| - 1].events
  }

  /** The models of the old side in order, then those only the fresh side has. */
  function AllKeys(before: seq<Profile>, after: seq<Profile>): seq<Key> {
    Keys(before) + OnlyIn(after, before)
  }

  function OnlyIn(after: seq<Profile>, before: seq<Profile>): seq<Key> {
    if after == [] then []
    else
      var key := after[|after| - 1].key;
      OnlyIn(after[..|after| - 1], before) + (if Find(before, key).Some? then [] else [key])
  }

  function PairOf(key: Key, before: seq<Profile>, after: seq<Profile>): FactorPair {
    var total, otherTotal := UnitsTotal(before), UnitsTotal(after);
    (FactorsOf(Find(before, key), Find(after, key), total, otherTotal),
     FactorsOf(Find(after, key), Find(before, key), otherTotal, total))
  }

  function Pairs(keys: seq<Key>, before: seq<Profile>, after: seq<Profile>): seq<FactorPair> {
    seq(|keys|, i requires 0 <= i < |keys| => PairOf(keys[i], before, after))
  }

  /** The subset table of two lists of comparable profiles. */
  function TableOf(before: seq<Profile>, after: seq<Profile>): Shapley.SubsetTable {
    Table(Pairs(AllKeys(before, after), before, after), UnitsTotal(before), UnitsTotal(after))
  }

  datatype Report = Report(
    deltaUsd: real, driversUsd: seq<real>, unexplainedUsd: real,
    missingEvidenceEvents: int, excludedEvents: int, analyzedPreviousUsd: real, analyzedCurrentUsd: real)

  ghost predicate DistinctKeys(profiles: seq<Profile>) {
    forall i, j :: 0 <= i < j < |profiles| ==> profiles[i].key != profiles[j].key
  }

  function Excluded(previous: CostPeriod, current: CostPeriod): set<Key> {
    previous.incompleteModels + current.incompleteModels
  }

  ghost function DriversOf(table: Shapley.SubsetTable): seq<real> {
    [Shapley.Driver(table, 0), Shapley.Driver(table, 1), Shapley.Driver(table, 2), Shapley.Driver(table, 3), Shapley.Driver(table, 4)]
  }

  function DriverSum(drivers: seq<real>): real
    requires |drivers| == 5
  {
    drivers[0] + drivers[1] + drivers[2] + drivers[3] + drivers[4]
  }

  /** The report on two periods whose comparable profiles are `before` and `after`. */
  ghost predicate IsReport(report: Report, previous: CostPeriod, current: CostPeriod, before: seq<Profile>, after: seq<Profile>) {
    var t0, t1 := previous.totals, current.totals;
    && report.driversUsd == DriversOf(TableOf(before, after))
    && report.deltaUsd == t1.costUsd - t0.costUsd
    && report.unexplainedUsd == report.deltaUsd - DriverSum(report.driversUsd)
    && report.missingEvidenceEvents == t0.events + t1.events - t0.comparableEvents - t1.comparableEvents
    && report.excludedEvents == t0.events + t1.events - EventsTotal(before) - EventsTotal(after)
    && report.analyzedPreviousUsd == UsdTotal(before)
    && report.analyzedCurrentUsd == UsdTotal(after)
  }

  method ComputePairs(keys: seq<Key>, before: seq<Profile>, after: seq<Profile>) returns (pairs: seq<FactorPair>)
    ensures pairs == Pairs(keys, before, after)
  {
    pairs := [];
    var oldTotal, newTotal := UnitsTotal(before), UnitsTotal(after);
    for n := 0 to |keys|
      invariant pairs == Pairs(keys[..n], before, after)
    {
      var oldSide := ComputeFactors(Find(before, keys[n]), Find(after, keys[n]), oldTotal, newTotal);
      var newSide := ComputeFactors(Find(after, keys[n]), Find(before, keys[n]), newTotal, oldTotal);
      pairs := pairs + [(oldSide, newSide)];
    }
    assert keys[..|keys|] == keys;
  }

  method ComputeDrivers(table: Shapley.SubsetTable) returns (drivers: seq<real>)
    ensures drivers == DriversOf(table)
  {
    hide Shapley.Driver;
    drivers := [];
    for index := 0 to 5
      invariant |drivers| == index
      invariant forall i :: 0 <= i < index ==> drivers[i] == Shapley.Driver(table, i)
    {
      var driver := Shapley.ComputeDriver(table, index);
      drivers := drivers + [driver];
    }
  }

  method DecomposeCostChange(previous: CostPeriod, current: CostPeriod) returns (report: Report)
    requires DistinctKeys(previous.profiles) && DistinctKeys(current.profiles)
    ensures IsReport(report, previous, current,
      Kept(previous.profiles, Excluded(previous, current)), Kept(current.profiles, Excluded(previous, current)))
  {
    var excluded := Excluded(previous, current);
    report := Analyze(previous, current, Kept(previous.profiles, excluded), Kept(current.profiles, excluded));
  }

  method Analyze(previous: CostPeriod, current: CostPeriod, before: seq<Profile>, after: seq<Profile>) returns (report: Report)
    ensures IsReport(report, previous, current, before, after)
  {
    var t0, t1 := previous.totals, current.totals;
    var pairs := ComputePairs(AllKeys(before, after), before, after);
    var drivers := ComputeDrivers(Table(pairs, UnitsTotal(before), UnitsTotal(after)));
    var deltaUsd := t1.costUsd - t0.costUsd;
    report := Report(
      deltaUsd, drivers, deltaUsd - DriverSum(drivers),
      t0.events + t1.events - t0.comparableEvents - t1.comparableEvents,
      t0.events + t1.events - EventsTotal(before) - EventsTotal(after),
      UsdTotal(before), UsdTotal(after));
  }

  // ------------------------------------------- one side rebuilt from its factors

  lemma Cancel(x: real, y: real)
    requires y != 0.0
    ensures y * (x / y) == x
  {
  }

  lemma RateRebuildsBucket(own: Profile, alt: Profile, i: nat)
    requires i < 5 && ValidProfile(own)
    ensures own.units[i] as real * Rate(own, alt, i) == own.usd[i]
  {
    assert ValidBucket(own, i);
    if own.units[i] > 0 {
      Cancel(own.usd[i], own.units[i] as real);
    }
  }

  lemma ShareRebuildsBucket(own: Profile, alt: Profile, i: nat)
    requires i < 5 && i != OUTPUT && ValidProfile(own)
    requires InputUnits(own.units) > 0
    ensures InputUnits(own.units) as real * (CacheShare(own.units, alt.units, i) * Rate(own, alt, i)) == own.usd[i]
  {
    var input, share, rate := InputUnits(own.units) as real, CacheShare(own.units, alt.units, i), Rate(own, alt, i);
    Cancel(own.units[i] as real, input);
    Reassociate(input, share, rate);
    RateRebuildsBucket(own, alt, i);
  }

  lemma Reassociate(a: real, b: real, c: real)
    ensures a * (b * c) == (a * b) * c
  {
  }

  lemma Combine(k: real, a: real, b: real, c: real, d: real, ka: real, kb: real, kc: real, kd: real)
    requires k * a == ka && k * b == kb && k * c == kc && k * d == kd
    ensures k * (a + b + c + d) == ka + kb + kc + kd
  {
  }

  /** Input rate of a side by its own cache shares and rates. */
  function OwnInputRate(own: Profile, alt: Profile): real {
    CacheShare(own.units, alt.units, 0) * Rate(own, alt, 0) + CacheShare(own.units, alt.units, 2) * Rate(own, alt, 2)
    + CacheShare(own.units, alt.units, 3) * Rate(own, alt, 3) + CacheShare(own.units, alt.units, 4) * Rate(own, alt, 4)
  }

  /** All input buckets of a side, rebuilt from cache shares and rates. */
  lemma InputRebuilds(own: Profile, alt: Profile)
    requires ValidProfile(own)
    ensures InputUnits(own.units) as real * OwnInputRate(own, alt) == own.usd[0] + own.usd[2] + own.usd[3] + own.usd[4]
  {
    if InputUnits(own.units) > 0 {
      InputRebuildsWhenUsed(own, alt);
    } else {
      assert ValidBucket(own, 0) && ValidBucket(own, 2) && ValidBucket(own, 3) && ValidBucket(own, 4);
    }
  }

  lemma InputRebuildsWhenUsed(own: Profile, alt: Profile)
    requires ValidProfile(own) && InputUnits(own.units) > 0
    ensures InputUnits(own.units) as real * OwnInputRate(own, alt) == own.usd[0] + own.usd[2] + own.usd[3] + own.usd[4]
  {
    hide CacheShare, Rate;
    ShareRebuildsBucket(own, alt, 0);
    ShareRebuildsBucket(own, alt, 2);
    ShareRebuildsBucket(own, alt, 3);
    ShareRebuildsBucket(own, alt, 4);
    Combine(InputUnits(own.units) as real,
      CacheShare(own.units, alt.units, 0) * Rate(own, alt, 0), CacheShare(own.units, alt.units, 2) * Rate(own, alt, 2),
      CacheShare(own.units, alt.units, 3) * Rate(own, alt, 3), CacheShare(own.units, alt.units, 4) * Rate(own, alt, 4),
      own.usd[0], own.usd[2], own.usd[3], own.usd[4]);
  }

  /** Units times the cost per unit is the cost, whatever the side borrowed for empty buckets. */
  lemma UnitsRebuildCost(own: Profile, alt: Profile, p: real)
    requires ValidProfile(own)
    requires TotalUnits(own.units) as real * p == own.units[OUTPUT] as real
    ensures TotalUnits(own.units) as real * ((1.0 - p) * OwnInputRate(own, alt) + p * Rate(own, alt, OUTPUT)) == TotalUsd(own.usd)
  {
    hide OwnInputRate, Rate;
    InputRebuilds(own, alt);
    RateRebuildsBucket(own, alt, OUTPUT);
    SplitUnits(TotalUnits(own.units) as real, p, own.units[OUTPUT] as real, OwnInputRate(own, alt), Rate(own, alt, OUTPUT));
  }

  /** `u` units of which `o = u * p` are output. */
  lemma SplitUnits(u: real, p: real, o: real, inputRate: real, outputRate: real)
    requires u * p == o
    ensures u * ((1.0 - p) * inputRate + p * outputRate) == (u - o) * inputRate + o * outputRate
  {
    assert u * ((1.0 - p) * inputRate) == (u - u * p) * inputRate;
    assert u * (p * outputRate) == (u * p) * outputRate;
  }

  lemma OutputShare(profile: Option<Profile>, other: Option<Profile>)
    requires ValidProfile(Or(profile))
    ensures var own, alt := Or(profile), Or(other);
            TotalUnits(own.units) as real
            * ShareOf(own.units[OUTPUT], TotalUnits(own.units), alt.units[OUTPUT], TotalUnits(alt.units), 0.0)
            == own.units[OUTPUT] as real
  {
    var own := Or(profile);
    assert ValidBucket(own, 0) && ValidBucket(own, 1) && ValidBucket(own, 2) && ValidBucket(own, 3) && ValidBucket(own, 4);
    if TotalUnits(own.units) > 0 {
      Cancel(own.units[OUTPUT] as real, TotalUnits(own.units) as real);
    }
  }

  lemma TermIs(profile: Option<Profile>, other: Option<Profile>, total: int, otherTotal: int)
    ensures var f := FactorsOf(profile, other, total, otherTotal);
            Term(f, f, f, f) == f.share *
              ((1.0 - f.output) * OwnInputRate(Or(profile), Or(other)) + f.output * Rate(Or(profile), Or(other), OUTPUT))
  {
    hide ShareOf, Rate;
    var f := FactorsOf(profile, other, total, otherTotal);
    assert f.cache[1] * f.rates[1] == 0.0;
    assert InputRate(f, f) == OwnInputRate(Or(profile), Or(other));
  }

  /** Volume times the term of one model is that model's cost on this side. */
  lemma TermRebuildsCost(profile: Option<Profile>, other: Option<Profile>, total: int, otherTotal: int)
    requires ValidProfile(Or(profile)) && total > 0
    ensures var f := FactorsOf(profile, other, total, otherTotal);
            total as real * Term(f, f, f, f) == TotalUsd(Or(profile).usd)
  {
    var own, alt := Or(profile), Or(other);
    var f := FactorsOf(profile, other, total, otherTotal);
    hide OwnInputRate, Rate, Term;
    TermIs(profile, other, total, otherTotal);
    OutputShare(profile, other);
    UnitsRebuildCost(own, alt, f.output);
    Cancel(TotalUnits(own.units) as real, total as real);
    Reassociate(total as real, f.share, (1.0 - f.output) * OwnInputRate(own, alt) + f.output * Rate(own, alt, OUTPUT));
  }

  // ------------------------------------------------------- sums over the models

  ghost function KeyTerm(key: Key, mask: nat, before: seq<Profile>, after: seq<Profile>): real {
    PairTerm(PairOf(key, before, after), mask)
  }

  ghost function SumKeys(keys: seq<Key>, mask: nat, before: seq<Profile>, after: seq<Profile>): real {
    if keys == [] then 0.0
    else SumKeys(keys[..|keys| - 1], mask, before, after) + KeyTerm(keys[|keys| - 1], mask, before, after)
  }

  lemma {:induction false} SumTermsByKey(keys: seq<Key>, mask: nat, before: seq<Profile>, after: seq<Profile>)
    ensures SumTerms(Pairs(keys, before, after), mask) == SumKeys(keys, mask, before, after)
    decreases |keys|
  {
    hide PairOf, PairTerm;
    if keys != [] {
      var last := |keys| - 1;
      assert Pairs(keys, before, after)[..last] == Pairs(keys[..last], before, after);
      SumTermsByKey(keys[..last], mask, before, after);
    }
  }

  ghost predicate Distinct(keys: seq<Key>) {
    forall i, j :: 0 <= i < j < |keys| ==> keys[i] != keys[j]
  }

  lemma {:induction false} TakeOut(keys: seq<Key>, j: nat, mask: nat, before: seq<Profile>, after: seq<Profile>)
    requires j < |keys|
    ensures SumKeys(keys, mask, before, after) ==
      SumKeys(keys[..j] + keys[j + 1..], mask, before, after) + KeyTerm(keys[j], mask, before, after)
    decreases |keys|
  {
    hide KeyTerm;
    var last := |keys| - 1;
    var rest := keys[..j] + keys[j + 1..];
    if j == last {
      assert rest == keys[..last];
    } else {
      TakeOut(keys[..last], j, mask, before, after);
      assert rest[..|rest| - 1] == keys[..last][..j] + keys[..last][j + 1..];
    }
  }

  lemma AnyKey(keys: seq<Key>) returns (k: Key)
    requires keys != []
    ensures k in keys
  {
    k := keys[0];
  }

  /** The sum does not depend on the order of the models. */
  lemma {:induction false} AnyOrder(a: seq<Key>, b: seq<Key>, mask: nat, before: seq<Profile>, after: seq<Profile>)
    requires Distinct(a) && Distinct(b)
    requires forall k :: k in a <==> k in b
    ensures SumKeys(a, mask, before, after) == SumKeys(b, mask, before, after)
    decreases |a|
  {
    hide KeyTerm;
    if a == [] {
      if b != [] { var k := AnyKey(b); }
    } else {
      var last := |a| - 1;
      assert a[last] in b;
      var j :| 0 <= j < |b| && b[j] == a[last];
      var rest := b[..j] + b[j + 1..];
      TakeOut(b, j, mask, before, after);
      forall k ensures k in a[..last] <==> k in rest {
        SameRest(a, b, j, k);
      }
      AnyOrder(a[..last], rest, mask, before, after);
    }
  }

  lemma SameRest(a: seq<Key>, b: seq<Key>, j: nat, k: Key)
    requires Distinct(a) && Distinct(b) && j < |b| && |a| > 0 && b[j] == a[|a| - 1]
    requires forall key :: key in a <==> key in b
    ensures k in a[..|a| - 1] <==> k in b[..j] + b[j + 1..]
  {
    var rest := b[..j] + b[j + 1..];
    assert b == b[..j] + [b[j]] + b[j + 1..];
    assert a == a[..|a| - 1] + [b[j]];
    assert b[j] !in rest by { assert forall i :: 0 <= i < |rest| ==> rest[i] == if i < j then b[i] else b[i + 1]; }
    assert b[j] !in a[..|a| - 1];
    assert k in a <==> k in a[..|a| - 1] || k == b[j];
    assert k in b <==> k in rest || k == b[j];
  }

  // ------------------------------------------------------ the keys of both sides

  lemma {:induction false} OnlyInHolds(after: seq<Profile>, before: seq<Profile>, key: Key)
    ensures key in OnlyIn(after, before) <==> Find(after, key).Some? && Find(before, key).None?
    decreases |after|
  {
    if after != [] {
      var last := |after| - 1;
      OnlyInHolds(after[..last], before, key);
      FindInPrefix(after, last, key);
    }
  }

  lemma FindInPrefix(profiles: seq<Profile>, n: nat, key: Key)
    requires n + 1 == |profiles|
    ensures Find(profiles, key).Some? <==> Find(profiles[..n], key).Some? || profiles[n].key == key
  {
    var k := ProfileIndex(profiles[..n], key);
    assert k < n ==> profiles[k].key == key;
    assert forall j :: 0 <= j < n ==> profiles[..n][j].key == profiles[j].key;
  }

  lemma {:induction false} OnlyInDistinct(after: seq<Profile>, before: seq<Profile>)
    requires DistinctKeys(after)
    ensures Distinct(OnlyIn(after, before))
    decreases |after|
  {
    if after != [] {
      var last := |after| - 1;
      OnlyInDistinct(after[..last], before);
      OnlyInHolds(after[..last], before, after[last].key);
      assert Find(after[..last], after[last].key).None?;
    }
  }

  lemma KeysHold(profiles: seq<Profile>, key: Key)
    ensures key in Keys(profiles) <==> Find(profiles, key).Some?
  {
    var k := ProfileIndex(profiles, key);
    if k < |profiles| {
      assert Keys(profiles)[k] == key;
    }
  }

  lemma AllKeysHold(before: seq<Profile>, after: seq<Profile>, key: Key)
    ensures key in AllKeys(before, after) <==> Find(before, key).Some? || Find(after, key).Some?
  {
    KeysHold(before, key);
    OnlyInHolds(after, before, key);
  }

  lemma AllKeysDistinct(before: seq<Profile>, after: seq<Profile>)
    requires DistinctKeys(before) && DistinctKeys(after)
    ensures Distinct(AllKeys(before, after))
  {
    var own, extra := Keys(before), OnlyIn(after, before);
    OnlyInDistinct(after, before);
    forall i, j | 0 <= i < |own| && 0 <= j < |extra| ensures own[i] != extra[j] {
      KeysHold(before, own[i]);
      OnlyInHolds(after, before, extra[j]);
    }
  }

  // ------------------------------------------------------------- exchanged sides

  lemma FlipBit(mask: nat, bit: nat)
    requires mask < 32 && bit < 5
    ensures Shapley.HasBit(31 - mask, bit) <==> !Shapley.HasBit(mask, bit)
  {
    if bit == 1 {
      assert (31 - mask) / 2 == 15 - mask / 2;
    } else if bit == 2 {
      assert (31 - mask) / 4 == 7 - mask / 4;
    } else if bit == 3 {
      assert (31 - mask) / 8 == 3 - mask / 8;
    } else if bit == 4 {
      assert (31 - mask) / 16 == 1 - mask / 16;
    }
  }

  lemma ExchangedTerm(key: Key, mask: nat, before: seq<Profile>, after: seq<Profile>)
    requires mask < 32
    ensures KeyTerm(key, 31 - mask, after, before) == KeyTerm(key, mask, before, after)
  {
    hide FactorsOf, Term, Shapley.HasBit;
    FlipBit(mask, 1);
    FlipBit(mask, 2);
    FlipBit(mask, 3);
    FlipBit(mask, 4);
  }

  lemma {:induction false} ExchangedSum(keys: seq<Key>, mask: nat, before: seq<Profile>, after: seq<Profile>)
    requires mask < 32
    ensures SumKeys(keys, 31 - mask, after, before) == SumKeys(keys, mask, before, after)
    decreases |keys|
  {
    hide KeyTerm;
    if keys != [] {
      ExchangedSum(keys[..|keys| - 1], mask, before, after);
      ExchangedTerm(keys[|keys| - 1], mask, before, after);
    }
  }

  /** Exchanging the periods reverses the subset table. */
  lemma ExchangedTable(before: seq<Profile>, after: seq<Profile>, mask: nat)
    requires DistinctKeys(before) && DistinctKeys(after) && mask < 32
    ensures TableOf(after, before)[31 - mask] == TableOf(before, after)[mask]
  {
    hide SumKeys, SumTerms, Pairs, AllKeys, UnitsTotal, Shapley.HasBit;
    var forward, backward := AllKeys(before, after), AllKeys(after, before);
    AllKeysDistinct(before, after);
    AllKeysDistinct(after, before);
    forall key ensures key in forward <==> key in backward {
      AllKeysHold(before, after, key);
      AllKeysHold(after, before, key);
    }
    AnyOrder(forward, backward, mask, before, after);
    ExchangedSum(backward, mask, before, after);
    SumTermsByKey(forward, mask, before, after);
    SumTermsByKey(backward, 31 - mask, after, before);
    FlipBit(mask, 0);
  }

  // --------------------------------------------------- a period's cost rebuilt

  ghost predicate ValidProfiles(profiles: seq<Profile>) {
    DistinctKeys(profiles) && forall k :: 0 <= k < |profiles| ==> ValidProfile(profiles[k])
  }

  ghost function SumUsdAt(keys: seq<Key>, profiles: seq<Profile>): real {
    if keys == [] then 0.0
    else SumUsdAt(keys[..|keys| - 1], profiles) + TotalUsd(Or(Find(profiles, keys[|keys| - 1])).usd)
  }

  lemma {:induction false} SumUsdAtOwnKeys(profiles: seq<Profile>, n: nat)
    requires DistinctKeys(profiles) && n <= |profiles|
    ensures SumUsdAt(Keys(profiles)[..n], profiles) == UsdTotal(profiles[..n])
    decreases n
  {
    if n > 0 {
      SumUsdAtOwnKeys(profiles, n - 1);
      assert Keys(profiles)[..n][..n - 1] == Keys(profiles)[..n - 1];
      assert profiles[..n][..n - 1] == profiles[..n - 1];
      assert ProfileIndex(profiles, profiles[n - 1].key) == n - 1;
    }
  }

  lemma {:induction false} SumUsdAtMissing(keys: seq<Key>, extra: seq<Key>, profiles: seq<Profile>)
    requires forall k :: k in extra ==> Find(profiles, k).None?
    ensures SumUsdAt(keys + extra, profiles) == SumUsdAt(keys, profiles)
    decreases |extra|
  {
    if extra == [] {
      assert keys + extra == keys;
    } else {
      var last := |extra| - 1;
      assert (keys + extra)[..|keys| + last] == keys + extra[..last];
      assert extra[last] in extra;
      SumUsdAtMissing(keys, extra[..last], profiles);
    }
  }

  lemma AllKeysCost(before: seq<Profile>, after: seq<Profile>)
    requires DistinctKeys(before)
    ensures SumUsdAt(AllKeys(before, after), before) == UsdTotal(before)
  {
    forall k | k in OnlyIn(after, before) ensures Find(before, k).None? {
      OnlyInHolds(after, before, k);
    }
    SumUsdAtMissing(Keys(before), OnlyIn(after, before), before);
    SumUsdAtOwnKeys(before, |before|);
    assert Keys(before)[..|before|] == Keys(before) && before[..|before|] == before;
  }

  lemma NoBits(bit: nat)
    requires bit < 5
    ensures !Shapley.HasBit(0, bit)
  {
  }

  lemma KeyRebuildsCost(key: Key, before: seq<Profile>, after: seq<Profile>)
    requires ValidProfiles(before) && UnitsTotal(before) > 0
    ensures UnitsTotal(before) as real * KeyTerm(key, 0, before, after) == TotalUsd(Or(Find(before, key)).usd)
  {
    hide FactorsOf, Term, Shapley.HasBit;
    NoBits(1);
    NoBits(2);
    NoBits(3);
    NoBits(4);
    assert ValidProfile(Or(Find(before, key)));
    TermRebuildsCost(Find(before, key), Find(after, key), UnitsTotal(before), UnitsTotal(after));
  }

  lemma {:induction false} SumRebuildsCost(keys: seq<Key>, before: seq<Profile>, after: seq<Profile>)
    requires ValidProfiles(before) && UnitsTotal(before) > 0
    ensures UnitsTotal(before) as real * SumKeys(keys, 0, before, after) == SumUsdAt(keys, before)
    decreases |keys|
  {
    hide KeyTerm, UnitsTotal;
    if keys != [] {
      var last := |keys| - 1;
      SumRebuildsCost(keys[..last], before, after);
      KeyRebuildsCost(keys[last], before, after);
      DistributeOverSum(UnitsTotal(before) as real, SumKeys(keys[..last], 0, before, after), KeyTerm(keys[last], 0, before, after));
    }
  }

  lemma DistributeOverSum(k: real, a: real, b: real)
    ensures k * (a + b) == k * a + k * b
  {
  }

  /** Without units there is no cost. */
  lemma {:induction false} NoUnitsNoCost(profiles: seq<Profile>)
    requires forall k :: 0 <= k < |profiles| ==> ValidProfile(profiles[k])
    ensures UnitsTotal(profiles) >= 0
    ensures UnitsTotal(profiles) == 0 ==> UsdTotal(profiles) == 0.0
    decreases |profiles|
  {
    if profiles != [] {
      var last := profiles[|profiles| - 1];
      NoUnitsNoCost(profiles[..|profiles| - 1]);
      assert ValidBucket(last, 0) && ValidBucket(last, 1) && ValidBucket(last, 2) && ValidBucket(last, 3) && ValidBucket(last, 4);
    }
  }

  /** With no factor changed the table gives back the cost of the old side. */
  lemma OldCostRebuilt(before: seq<Profile>, after: seq<Profile>)
    requires ValidProfiles(before)
    ensures TableOf(before, after)[0] == UsdTotal(before)
  {
    hide KeyTerm, PairOf, UnitsTotal, UsdTotal, Shapley.HasBit;
    SumTermsByKey(AllKeys(before, after), 0, before, after);
    NoBits(0);
    NoUnitsNoCost(before);
    if UnitsTotal(before) > 0 {
      SumRebuildsCost(AllKeys(before, after), before, after);
      AllKeysCost(before, after);
    }
  }

  // ---------------------------------------------------------------- main results

  /** The five drivers add up exactly to the change of the analysed cost. */
  lemma DriversExplainAnalyzedCost(before: seq<Profile>, after: seq<Profile>)
    requires ValidProfiles(before) && ValidProfiles(after)
    ensures DriverSum(DriversOf(TableOf(before, after))) == UsdTotal(after) - UsdTotal(before)
  {
    hide TableOf, UsdTotal, Shapley.Driver, ValidProfile;
    var table := TableOf(before, after);
    Shapley.Efficiency(table);
    OldCostRebuilt(before, after);
    OldCostRebuilt(after, before);
    ExchangedTable(after, before, 0);
  }

  /** Exchanging the two periods negates every driver. */
  lemma ExchangeNegatesDrivers(before: seq<Profile>, after: seq<Profile>, i: nat)
    requires DistinctKeys(before) && DistinctKeys(after) && i < 5
    ensures DriversOf(TableOf(after, before))[i] == -DriversOf(TableOf(before, after))[i]
  {
    hide TableOf, Shapley.Driver;
    var forward, backward := TableOf(before, after), TableOf(after, before);
    forall m | 0 <= m < 32 ensures backward[m] == forward[31 - m] {
      ExchangedTable(before, after, 31 - m);
    }
    Shapley.Antisymmetry(forward, backward, i);
  }

  lemma {:induction false} KeptValid(profiles: seq<Profile>, excluded: set<Key>)
    requires ValidProfiles(profiles)
    ensures ValidProfiles(Kept(profiles, excluded))
    ensures forall k :: 0 <= k < |Kept(profiles, excluded)| ==> Kept(profiles, excluded)[k] in profiles
    decreases |profiles|
  {
    if profiles != [] {
      var last := |profiles| - 1;
      var kept := Kept(profiles[..last], excluded);
      KeptValid(profiles[..last], excluded);
      assert forall k :: 0 <= k < last ==> profiles[..last][k] == profiles[k];
      forall k | 0 <= k < |kept| ensures kept[k].key != profiles[last].key {
        assert kept[k] in profiles[..last];
      }
    }
  }

  lemma {:induction false} KeptUsd(profiles: seq<Profile>, excluded: set<Key>)
    ensures UsdTotal(Kept(profiles, excluded)) == UsdOutside(profiles, excluded)
    ensures EventsTotal(Kept(profiles, excluded)) == EventsOutside(profiles, excluded)
    ensures UnitsTotal(Kept(profiles, excluded)) == UnitsOutside(profiles, excluded)
    decreases |profiles|
  {
    if profiles != [] {
      var last := |profiles| - 1;
      var kept := Kept(profiles[..last], excluded);
      KeptUsd(profiles[..last], excluded);
      if profiles[last].key !in excluded {
        assert (kept + [profiles[last]])[..|kept|] == kept;
      } else {
        assert kept + [] == kept;
      }
    }
  }

  /**
   * For any two lists of rows: the drivers add up to the change of the analysed cost, and what they
   * leave unexplained is exactly the change of the cost of the rows left out.
   */
  lemma UnexplainedIsLeftOut(old': seq<Row>, new': seq<Row>, report: Report)
    requires var previous, current := Accumulated(old'), Accumulated(new');
             IsReport(report, previous, current,
               Kept(previous.profiles, Excluded(previous, current)), Kept(current.profiles, Excluded(previous, current)))
    ensures DriverSum(report.driversUsd) == report.analyzedCurrentUsd - report.analyzedPreviousUsd
    ensures var excluded := Excluded(Accumulated(old'), Accumulated(new'));
            report.unexplainedUsd == LeftOutUsd(new', excluded) - LeftOutUsd(old', excluded)
  {
    var previous, current := Accumulated(old'), Accumulated(new');
    var excluded := Excluded(previous, current);
    hide TableOf, Kept, Accumulated, LeftOutUsd, UsdTotal, UsdOutside, ValidProfile;
    AccumulatedIsValid(old');
    AccumulatedIsValid(new');
    KeptValid(previous.profiles, excluded);
    KeptValid(current.profiles, excluded);
    DriversExplainAnalyzedCost(Kept(previous.profiles, excluded), Kept(current.profiles, excluded));
    KeptUsd(previous.profiles, excluded);
    KeptUsd(current.profiles, excluded);
    CostSplits(old', excluded);
    CostSplits(new', excluded);
  }

  // ---------------------------------------------------- the report, told from the rows alone

  /** The models with a row that counts and cannot be attributed. */
  ghost function LeftOutModels(rows: seq<Row>): set<Key> {
    set row | row in Where(CountedRows(rows), IsLeftOut()) :: row.event.key
  }

  /** The rows the analysis is about: those that can be attributed, of models that are left out in neither period. */
  ghost function Analyzed(rows: seq<Row>, excluded: set<Key>): seq<Row> { Where(CountedRows(rows), IsKept(excluded)) }

  lemma LeftOutIsIncomplete(rows: seq<Row>)
    ensures Accumulated(rows).incompleteModels == LeftOutModels(rows)
  {
    TotalsAreSums(rows);
    hide Accumulated, CountedRows, Where, AreTotalsOf;
  }

  lemma PeriodSums(rows: seq<Row>, excluded: set<Key>)
    ensures var (p, kept) := (Accumulated(rows), Analyzed(rows, excluded));
            && p.totals.costUsd == SumCost(CountedRows(rows)) && p.totals.events == |CountedRows(rows)|
            && p.totals.comparableEvents == |Where(CountedRows(rows), IsAttributed())|
            && UsdTotal(Kept(p.profiles, excluded)) == SumCost(kept) && EventsTotal(Kept(p.profiles, excluded)) == |kept|
            && UnitsTotal(Kept(p.profiles, excluded)) == SumTokens(kept)
  {
    TotalsAreSums(rows);
    KeptSums(rows, excluded);
    KeptUsd(Accumulated(rows).profiles, excluded);
    hide Accumulated, CountedRows, Where, AreLeftOut, UsdTotal, EventsTotal, UnitsTotal, UsdOutside, EventsOutside, UnitsOutside, Kept;
  }

  /**
   * The report on two lists of rows. A model with a row that cannot be attributed in either list is out of both; the
   * rest is analysed, and its costs, its events and the two periods' volumes are those of its rows.
   */
  lemma ReportIsOfItsRows(old': seq<Row>, new': seq<Row>, report: Report)
    requires var previous, current := Accumulated(old'), Accumulated(new');
             IsReport(report, previous, current,
               Kept(previous.profiles, Excluded(previous, current)), Kept(current.profiles, Excluded(previous, current)))
    ensures var excluded := LeftOutModels(old') + LeftOutModels(new');
            var (all0, all1, kept0, kept1) := (CountedRows(old'), CountedRows(new'), Analyzed(old', excluded), Analyzed(new', excluded));
            && report.deltaUsd == SumCost(all1) - SumCost(all0)
            && report.analyzedPreviousUsd == SumCost(kept0) && report.analyzedCurrentUsd == SumCost(kept1)
            && DriverSum(report.driversUsd) == SumCost(kept1) - SumCost(kept0)
            && report.unexplainedUsd == (SumCost(all1) - SumCost(kept1)) - (SumCost(all0) - SumCost(kept0))
            && report.missingEvidenceEvents ==
                 |all0| + |all1| - |Where(all0, IsAttributed())| - |Where(all1, IsAttributed())|
            && report.excludedEvents == |all0| + |all1| - |kept0| - |kept1|
            && UnitsTotal(Kept(Accumulated(old').profiles, excluded)) == SumTokens(kept0)
            && UnitsTotal(Kept(Accumulated(new').profiles, excluded)) == SumTokens(kept1)
  {
    var excluded := LeftOutModels(old') + LeftOutModels(new');
    LeftOutIsIncomplete(old');
    LeftOutIsIncomplete(new');
    assert Excluded(Accumulated(old'), Accumulated(new')) == excluded;
    PeriodSums(old', excluded);
    PeriodSums(new', excluded);
    UnexplainedIsLeftOut(old', new', report);
    hide TableOf, Kept, Accumulated, CountedRows, Where, SumCost, SumTokens, LeftOutUsd, UsdTotal, EventsTotal, UnitsTotal, Shapley.Driver,
         LeftOutModels, Analyzed, DriversOf;
  }

  /** What a model did not use on either side: its input counts as plain, and it has no share, no output and no rates. */
  lemma UnusedFactors(own: Option<Profile>, other: Option<Profile>, total: nat, otherTotal: nat)
    requires ValidProfile(Or(own)) && ValidProfile(Or(other))
    ensures var (f, u, v) := (FactorsOf(own, other, total, otherTotal), Or(own).units, Or(other).units);
            && (total == 0 && otherTotal == 0 ==> f.share == 0.0)
            && (TotalUnits(u) == 0 && TotalUnits(v) == 0 ==> f.output == 0.0)
            && (InputUnits(u) == 0 && InputUnits(v) == 0 ==> f.cache == [1.0, 0.0, 0.0, 0.0, 0.0])
            && (forall i :: 0 <= i < 5 && u[i] == 0 && v[i] == 0 ==> f.rates[i] == 0.0)
  {
    var u, v := Or(own).units, Or(other).units;
    assert ValidBucket(Or(own), 0) && ValidBucket(Or(own), 2) && ValidBucket(Or(own), 3) && ValidBucket(Or(own), 4);
    assert ValidBucket(Or(other), 0) && ValidBucket(Or(other), 2) && ValidBucket(Or(other), 3) && ValidBucket(Or(other), 4);
  }

  /** The cache factor is a distribution: four shares that are not negative and add up to one. */
  lemma CacheIsDistribution(own: Profile, other: Profile)
    requires ValidProfile(own) && ValidProfile(other)
    ensures var (a, b, c, d) := (CacheShare(own.units, other.units, 0), CacheShare(own.units, other.units, 2),
                                 CacheShare(own.units, other.units, 3), CacheShare(own.units, other.units, 4));
            a >= 0.0 && b >= 0.0 && c >= 0.0 && d >= 0.0 && a + b + c + d == 1.0 && CacheShare(own.units, other.units, 1) == 0.0
  {
    assert ValidBucket(own, 0) && ValidBucket(own, 2) && ValidBucket(own, 3) && ValidBucket(own, 4);
    assert ValidBucket(other, 0) && ValidBucket(other, 2) && ValidBucket(other, 3) && ValidBucket(other, 4);
    hide ValidBucket, ValidProfile;
    if InputUnits(own.units) > 0 {
      SharesOfWhole(own.units);
    } else if InputUnits(other.units) > 0 {
      SharesOfWhole(other.units);
    }
  }

  lemma SharesOfWhole(u: Units)
    requires InputUnits(u) > 0 && u[0] >= 0 && u[2] >= 0 && u[3] >= 0 && u[4] >= 0
    ensures var n := InputUnits(u) as real;
            && u[0] as real / n + u[2] as real / n + u[3] as real / n + u[4] as real / n == 1.0
            && u[0] as real / n >= 0.0 && u[2] as real / n >= 0.0 && u[3] as real / n >= 0.0 && u[4] as real / n >= 0.0
  {
    assert InputUnits(u) == u[0] + u[2] + u[3] + u[4];
    FractionsAddUp(u[0] as real, u[2] as real, u[3] as real, u[4] as real, InputUnits(u) as real);
  }

  lemma FractionsAddUp(a: real, b: real, c: real, d: real, n: real)
    requires n > 0.0 && n == a + b + c + d && a >= 0.0 && b >= 0.0 && c >= 0.0 && d >= 0.0
    ensures a / n + b / n + c / n + d / n == 1.0
    ensures a / n >= 0.0 && b / n >= 0.0 && c / n >= 0.0 && d / n >= 0.0
  {
    AddFractions(a, b, n);
    AddFractions(a + b, c, n);
    AddFractions(a + b + c, d, n);
  }

  lemma AddFractions(a: real, b: real, n: real)
    requires n != 0.0
    ensures a / n + b / n == (a + b) / n
  {
  }

  // ------------------------------------------------- a factor that is the same on both sides

  lemma BitsOf(a: nat, b: nat, c: nat, d: nat, e: nat)
    requires a <= 1 && b <= 1 && c <= 1 && d <= 1 && e <= 1
    ensures var mask := a + 2 * b + 4 * c + 8 * d + 16 * e;
            && (Shapley.HasBit(mask, 0) <==> a == 1) && (Shapley.HasBit(mask, 1) <==> b == 1) && (Shapley.HasBit(mask, 2) <==> c == 1)
            && (Shapley.HasBit(mask, 3) <==> d == 1) && (Shapley.HasBit(mask, 4) <==> e == 1)
  {
    var mask := a + 2 * b + 4 * c + 8 * d + 16 * e;
    assert mask / 2 == b + 2 * c + 4 * d + 8 * e && mask / 4 == c + 2 * d + 4 * e && mask / 8 == d + 2 * e && mask / 16 == e;
  }

  lemma SplitBits(mask: nat) returns (a: nat, b: nat, c: nat, d: nat, e: nat)
    requires mask < 32
    ensures a <= 1 && b <= 1 && c <= 1 && d <= 1 && e <= 1 && mask == a + 2 * b + 4 * c + 8 * d + 16 * e
  {
    e := mask / 16;
    var m := mask - 16 * e;
    d := m / 8;
    m := m - 8 * d;
    c := m / 4;
    m := m - 4 * c;
    b := m / 2;
    a := m - 2 * b;
  }

  /** Setting a bit leaves the others. */
  lemma OtherBits(mask: nat, i: nat, bit: nat)
    requires i < 5 && bit < 5 && i != bit && mask + Shapley.Pow2(i) < 32 && !Shapley.HasBit(mask, i)
    ensures Shapley.HasBit(mask + Shapley.Pow2(i), bit) <==> Shapley.HasBit(mask, bit)
  {
    hide Shapley.HasBit;
    var a, b, c, d, e := SplitBits(mask);
    BitsOf(a, b, c, d, e);
    if i == 0 { BitsOf(1, b, c, d, e); }
    else if i == 1 { BitsOf(a, 1, c, d, e); }
    else if i == 2 { BitsOf(a, b, 1, d, e); }
    else if i == 3 { BitsOf(a, b, c, 1, e); }
    else { BitsOf(a, b, c, d, 1); }
  }

  /** Factor `i` of a model, from 1 on, is the same on both sides. */
  ghost predicate SameFactor(pair: FactorPair, i: nat) {
    match i
    case 1 => pair.0.share == pair.1.share
    case 2 => pair.0.output == pair.1.output
    case 3 => pair.0.cache == pair.1.cache
    case _ => pair.0.rates == pair.1.rates
  }

  lemma SameTerm(a: Factors, b: Factors, mix: Factors, output: Factors, cache: Factors, rates: Factors)
    ensures a.share == b.share ==> Term(a, output, cache, rates) == Term(b, output, cache, rates)
    ensures a.output == b.output ==> Term(mix, a, cache, rates) == Term(mix, b, cache, rates)
    ensures a.cache == b.cache ==> Term(mix, output, a, rates) == Term(mix, output, b, rates)
    ensures a.rates == b.rates ==> Term(mix, output, cache, a) == Term(mix, output, cache, b)
  {
    assert a.cache == b.cache ==> InputRate(a, rates) == InputRate(b, rates);
    assert a.rates == b.rates ==> InputRate(cache, a) == InputRate(cache, b);
    hide InputRate;
  }

  lemma FactorChangesNoTerm(pair: FactorPair, mask: nat, i: nat)
    requires 1 <= i < 5 && mask + Shapley.Pow2(i) < 32 && !Shapley.HasBit(mask, i) && SameFactor(pair, i)
    ensures PairTerm(pair, mask + Shapley.Pow2(i)) == PairTerm(pair, mask)
  {
    var more := mask + Shapley.Pow2(i);
    forall bit: nat | bit < 5 && bit != i ensures Pick(pair, more, bit) == Pick(pair, mask, bit) {
      OtherBits(mask, i, bit);
    }
    SameTerm(Pick(pair, mask, i), Pick(pair, more, i), Pick(pair, mask, 1), Pick(pair, mask, 2), Pick(pair, mask, 3), Pick(pair, mask, 4));
    assert Pick(pair, mask, i) == pair.0 && Pick(pair, more, i) in {pair.0, pair.1};
    hide Term, Pick;
  }

  /** Every model has the same factor `i` on both sides. */
  ghost predicate SameFactors(before: seq<Profile>, after: seq<Profile>, i: nat) {
    forall key :: SameFactor(PairOf(key, before, after), i)
  }

  lemma {:induction false} FactorChangesNoSum(keys: seq<Key>, mask: nat, i: nat, before: seq<Profile>, after: seq<Profile>)
    requires 1 <= i < 5 && mask + Shapley.Pow2(i) < 32 && !Shapley.HasBit(mask, i) && SameFactors(before, after, i)
    ensures SumKeys(keys, mask + Shapley.Pow2(i), before, after) == SumKeys(keys, mask, before, after)
    decreases |keys|
  {
    hide PairTerm, PairOf, SameFactor, Shapley.HasBit, Shapley.Pow2;
    if keys != [] {
      FactorChangesNoSum(keys[..|keys| - 1], mask, i, before, after);
      FactorChangesNoTerm(PairOf(keys[|keys| - 1], before, after), mask, i);
    }
  }

  lemma EntryByKey(before: seq<Profile>, after: seq<Profile>, mask: nat)
    requires mask < 32
    ensures TableOf(before, after)[mask] ==
      (if Shapley.HasBit(mask, 0) then UnitsTotal(after) else UnitsTotal(before)) as real * SumKeys(AllKeys(before, after), mask, before, after)
  {
    hide SumKeys, SumTerms, Pairs, UnitsTotal, AllKeys, Shapley.HasBit;
    SumTermsByKey(AllKeys(before, after), mask, before, after);
  }

  lemma FactorChangesNoEntry(before: seq<Profile>, after: seq<Profile>, mask: nat, i: nat)
    requires 1 <= i < 5 && mask + Shapley.Pow2(i) < 32 && !Shapley.HasBit(mask, i) && SameFactors(before, after, i)
    ensures TableOf(before, after)[mask + Shapley.Pow2(i)] == TableOf(before, after)[mask]
  {
    hide SumKeys, TableOf, UnitsTotal, AllKeys, Shapley.HasBit, SameFactors, Shapley.Pow2;
    OtherBits(mask, i, 0);
    EntryByKey(before, after, mask);
    EntryByKey(before, after, mask + Shapley.Pow2(i));
    FactorChangesNoSum(AllKeys(before, after), mask, i, before, after);
  }

  lemma NothingContributed(table: Shapley.SubsetTable, i: nat)
    requires i < 5 && Shapley.Contribution(table, i, 32) == 0.0
    ensures DriversOf(table)[i] == 0.0
  {
    hide Shapley.Contribution;
    assert Shapley.Driver(table, i) == 0.0;
    hide Shapley.Driver;
  }

  /** A factor that no model changes has no driver. */
  lemma SameFactorsNoDriver(before: seq<Profile>, after: seq<Profile>, i: nat)
    requires 1 <= i < 5 && SameFactors(before, after, i)
    ensures DriversOf(TableOf(before, after))[i] == 0.0
  {
    hide TableOf, SameFactors, Shapley.HasBit, Shapley.Pow2, Shapley.Contribution, Shapley.Driver, DriversOf;
    var table := TableOf(before, after);
    forall m: nat | m + Shapley.Pow2(i) < 32 && !Shapley.HasBit(m, i) ensures table[m + Shapley.Pow2(i)] == table[m] {
      FactorChangesNoEntry(before, after, m, i);
    }
    Shapley.NullFactor(table, i, 32);
    NothingContributed(table, i);
  }

  // ---------------------------------------------------- what each of the drivers measures

  /** A model's tokens of one side by bucket: input, output, cache read and the two kinds of cache creation. */
  ghost function UnitsIn(profiles: seq<Profile>, key: Key): Units {
    if Find(profiles, key).Some? then Find(profiles, key).value.units else [0, 0, 0, 0, 0]
  }

  lemma UnitsInAreValid(profiles: seq<Profile>, key: Key)
    requires ValidProfiles(profiles)
    ensures UnitsIn(profiles, key) == Or(Find(profiles, key)).units
    ensures forall i :: 0 <= i < 5 ==> UnitsIn(profiles, key)[i] >= 0
  {
    if Find(profiles, key).Some? {
      var profile := profiles[ProfileIndex(profiles, key)];
      assert ValidProfile(profile);
      forall i | 0 <= i < 5 ensures profile.units[i] >= 0 {
        assert ValidBucket(profile, i);
      }
    }
  }

  lemma SameQuotient(a: int, b: int, c: int, d: int)
    requires b > 0 && d > 0 && a * d == c * b
    ensures a as real / b as real == c as real / d as real
  {
    var x, y := b as real, d as real;
    assert a as real * y == c as real * x;
    assert a as real / x == (a as real * y) / (x * y);
    assert c as real / y == (c as real * x) / (x * y);
  }

  lemma SameShare(part: int, whole: int, otherPart: int, otherWhole: int, fallback: real)
    requires whole > 0 && otherWhole > 0 ==> part * otherWhole == otherPart * whole
    ensures ShareOf(part, whole, otherPart, otherWhole, fallback) == ShareOf(otherPart, otherWhole, part, whole, fallback)
  {
    if whole > 0 && otherWhole > 0 { SameQuotient(part, whole, otherPart, otherWhole); }
  }

  /** As many tokens in both periods: no volume driver. */
  lemma SameVolumeNoVolumeDriver(before: seq<Profile>, after: seq<Profile>)
    requires UnitsTotal(before) == UnitsTotal(after)
    ensures DriversOf(TableOf(before, after))[0] == 0.0
  {
    hide SumTerms, UnitsTotal, AllKeys;
    var table := TableOf(before, after);
    forall m: nat | m + 1 < 32 && !Shapley.HasBit(m, 0) ensures table[m + 1] == table[m] {
      NoVolumeBit(Pairs(AllKeys(before, after), before, after), m);
    }
    hide TableOf;
    Shapley.NullFactor(table, 0, 32);
  }

  lemma {:induction false} NoVolumeBit(pairs: seq<FactorPair>, mask: nat)
    requires mask + 1 < 32 && !Shapley.HasBit(mask, 0)
    ensures SumTerms(pairs, mask + 1) == SumTerms(pairs, mask)
    decreases |pairs|
  {
    if pairs != [] {
      NoVolumeBit(pairs[..|pairs| - 1], mask);
      OtherBits(mask, 0, 1);
      OtherBits(mask, 0, 2);
      OtherBits(mask, 0, 3);
      OtherBits(mask, 0, 4);
      hide Term, Shapley.HasBit;
    }
  }

  /** Every model has the same part of all tokens in both periods. */
  ghost predicate SameModelMix(before: seq<Profile>, after: seq<Profile>) {
    forall key :: TotalUnits(UnitsIn(before, key)) * UnitsTotal(after) == TotalUnits(UnitsIn(after, key)) * UnitsTotal(before)
  }

  lemma SameMixNoModelMixDriver(before: seq<Profile>, after: seq<Profile>)
    requires ValidProfiles(before) && ValidProfiles(after) && SameModelMix(before, after)
    ensures DriversOf(TableOf(before, after))[1] == 0.0
  {
    forall key ensures SameFactor(PairOf(key, before, after), 1) {
      UnitsInAreValid(before, key);
      UnitsInAreValid(after, key);
      hide ShareOf, CacheShare, Rate, UnitsTotal, ValidProfiles, TotalUnits;
      SameShare(TotalUnits(UnitsIn(before, key)), UnitsTotal(before), TotalUnits(UnitsIn(after, key)), UnitsTotal(after), 0.0);
    }
    hide TableOf, SameModelMix, ValidProfiles, PairOf;
    SameFactorsNoDriver(before, after, 1);
  }

  /** Every model used in both periods has the same part of output among its tokens. */
  ghost predicate SameOutputMix(before: seq<Profile>, after: seq<Profile>) {
    forall key :: var p, q := UnitsIn(before, key), UnitsIn(after, key);
      TotalUnits(p) > 0 && TotalUnits(q) > 0 ==> p[1] * TotalUnits(q) == q[1] * TotalUnits(p)
  }

  lemma SameOutputNoOutputMixDriver(before: seq<Profile>, after: seq<Profile>)
    requires ValidProfiles(before) && ValidProfiles(after) && SameOutputMix(before, after)
    ensures DriversOf(TableOf(before, after))[2] == 0.0
  {
    forall key ensures SameFactor(PairOf(key, before, after), 2) {
      UnitsInAreValid(before, key);
      UnitsInAreValid(after, key);
      var p, q := UnitsIn(before, key), UnitsIn(after, key);
      hide ShareOf, CacheShare, Rate, UnitsTotal, ValidProfiles, TotalUnits;
      SameShare(p[1], TotalUnits(p), q[1], TotalUnits(q), 0.0);
    }
    hide TableOf, SameOutputMix, ValidProfiles, PairOf;
    SameFactorsNoDriver(before, after, 2);
  }

  ghost function InputOf(u: Units): int { u[0] + u[2] + u[3] + u[4] }

  /** Every model with input in both periods spreads it in the same way over the four input buckets. */
  ghost predicate SameCacheMix(before: seq<Profile>, after: seq<Profile>) {
    forall key :: var p, q := UnitsIn(before, key), UnitsIn(after, key);
      InputOf(p) > 0 && InputOf(q) > 0 ==>
        && p[0] * InputOf(q) == q[0] * InputOf(p) && p[2] * InputOf(q) == q[2] * InputOf(p)
        && p[3] * InputOf(q) == q[3] * InputOf(p) && p[4] * InputOf(q) == q[4] * InputOf(p)
  }

  lemma SameCacheFactor(key: Key, before: seq<Profile>, after: seq<Profile>)
    requires ValidProfiles(before) && ValidProfiles(after) && SameCacheMix(before, after)
    ensures SameFactor(PairOf(key, before, after), 3)
  {
    UnitsInAreValid(before, key);
    UnitsInAreValid(after, key);
    var p, q := UnitsIn(before, key), UnitsIn(after, key);
    assert InputUnits(p) == InputOf(p) && InputUnits(q) == InputOf(q);
    forall i: nat | i < 5 ensures CacheShare(p, q, i) == CacheShare(q, p, i) {
      if i != 1 {
        hide ShareOf, InputOf, InputUnits;
        assert i == 0 || i == 2 || i == 3 || i == 4;
        SameShare(p[i], InputOf(p), q[i], InputOf(q), if i == 0 then 1.0 else 0.0);
      }
    }
  }

  lemma SameCacheNoCacheMixDriver(before: seq<Profile>, after: seq<Profile>)
    requires ValidProfiles(before) && ValidProfiles(after) && SameCacheMix(before, after)
    ensures DriversOf(TableOf(before, after))[3] == 0.0
  {
    hide TableOf, SameCacheMix, ValidProfiles, PairOf;
    forall key ensures SameFactor(PairOf(key, before, after), 3) {
      SameCacheFactor(key, before, after);
    }
    SameFactorsNoDriver(before, after, 3);
  }

  /** Where both sides observed a bucket of a model, they paid the same rate for it. */
  ghost predicate SameObservedRates(before: seq<Profile>, after: seq<Profile>) {
    forall key, i | 0 <= i < 5 && Find(before, key).Some? && Find(after, key).Some? ::
      var p, q := Find(before, key).value, Find(after, key).value;
      p.units[i] > 0 && q.units[i] > 0 ==> p.usd[i] / p.units[i] as real == q.usd[i] / q.units[i] as real
  }

  lemma SameRates(key: Key, before: seq<Profile>, after: seq<Profile>)
    requires ValidProfiles(before) && ValidProfiles(after) && SameObservedRates(before, after)
    ensures SameFactor(PairOf(key, before, after), 4)
  {
    var p, q := Or(Find(before, key)), Or(Find(after, key));
    forall i | 0 <= i < 5 ensures Rate(p, q, i) == Rate(q, p, i) {
    }
  }

  /** Rates borrowed for what one side did not observe never show up as a price change. */
  lemma SameRatesNoRatesDriver(before: seq<Profile>, after: seq<Profile>)
    requires ValidProfiles(before) && ValidProfiles(after) && SameObservedRates(before, after)
    ensures DriversOf(TableOf(before, after))[4] == 0.0
  {
    hide TableOf, SameObservedRates, ValidProfiles, PairOf;
    forall key ensures SameFactor(PairOf(key, before, after), 4) {
      SameRates(key, before, after);
    }
    SameFactorsNoDriver(before, after, 4);
  }

  // ------------------------------------------------------------------- display

  datatype Display = Display(drivers: seq<real>, residual: real, delta: real)

  /** `Math.round`: halves go up. */
  function Round(x: real): int { (x + 0.5).Floor }

  function Pow10(digits: nat): (p: int)
    ensures p >= 1
  {
    if digits == 0 then 1 else 10 * Pow10(digits - 1)
  }

  /** An amount in whole display units. */
  function InUnits(usd: real, scale: int): int { Round(usd * scale as real) }

  function Shown(usd: real, scale: int): real
    requires scale >= 1
  {
    InUnits(usd, scale) as real / scale as real
  }

  function SumUnits(usd: seq<real>, scale: int): int
    requires |usd| == 5
  {
    InUnits(usd[0], scale) + InUnits(usd[1], scale) + InUnits(usd[2], scale) + InUnits(usd[3], scale) + InUnits(usd[4], scale)
  }

  function DisplayCostDrivers(report: Report, digits: nat := 6): Display
    requires |report.driversUsd| == 5
  {
    var scale := Pow10(digits);
    var rows := seq(5, i requires 0 <= i < 5 => Shown(report.driversUsd[i], scale));
    Display(rows, (InUnits(report.deltaUsd, scale) - SumUnits(rows, scale)) as real / scale as real, Shown(report.deltaUsd, scale))
  }

  /** Rounding a shown amount again changes nothing. */
  lemma ShownStays(usd: real, scale: int)
    requires scale >= 1
    ensures InUnits(Shown(usd, scale), scale) == InUnits(usd, scale)
  {
    Cancel(InUnits(usd, scale) as real, scale as real);
  }

  lemma RowsStay(report: Report, digits: nat)
    requires |report.driversUsd| == 5
    ensures SumUnits(DisplayCostDrivers(report, digits).drivers, Pow10(digits)) == SumUnits(report.driversUsd, Pow10(digits))
  {
    hide InUnits, Shown, Pow10;
    var d, scale := report.driversUsd, Pow10(digits);
    ShownStays(d[0], scale);
    ShownStays(d[1], scale);
    ShownStays(d[2], scale);
    ShownStays(d[3], scale);
    ShownStays(d[4], scale);
  }

  /** The visible rows and the residual add up to the visible delta, to the last digit. */
  lemma DisplayedRowsBalance(report: Report, digits: nat)
    requires |report.driversUsd| == 5
    ensures var shown := DisplayCostDrivers(report, digits);
            |shown.drivers| == 5 && DriverSum(shown.drivers) + shown.residual == shown.delta
  {
    RowsStay(report, digits);
    hide InUnits, Pow10;
    var d, scale := report.driversUsd, Pow10(digits);
    QuotientsBalance(InUnits(d[0], scale) as real, InUnits(d[1], scale) as real, InUnits(d[2], scale) as real,
      InUnits(d[3], scale) as real, InUnits(d[4], scale) as real, InUnits(report.deltaUsd, scale) as real, scale as real);
  }

  lemma QuotientsBalance(a: real, b: real, c: real, d: real, e: real, whole: real, s: real)
    requires s >= 1.0
    ensures a / s + b / s + c / s + d / s + e / s + (whole - (a + b + c + d + e)) / s == whole / s
  {
  }

  /** `units` display units differ from `usd` by at most `slack` of them. */
  ghost predicate Near(units: int, usd: real, scale: int, slack: real) {
    -slack <= units as real - usd * scale as real <= slack
  }

  /** Two amounts differ by at most `slack` display units. */
  ghost predicate WithinUnits(a: real, b: real, scale: int, slack: real) {
    -slack <= (a - b) * scale as real <= slack
  }

  lemma NearDifference(u: int, x: real, v: int, y: real, scale: int, slack: real, more: real)
    requires Near(u, x, scale, slack) && Near(v, y, scale, more)
    ensures Near(u - v, x - y, scale, slack + more)
  {
    var s := scale as real;
    assert (x - y) * s == x * s - y * s;
  }

  lemma RoundingIsNear(usd: real, scale: int)
    ensures Near(InUnits(usd, scale), usd, scale, 0.5)
  {
  }

  /** The residual differs from what is unexplained by at most three units of the last digit. */
  lemma ResidualIsUnexplained(report: Report, digits: nat)
    requires |report.driversUsd| == 5
    requires report.unexplainedUsd == report.deltaUsd - DriverSum(report.driversUsd)
    ensures WithinUnits(DisplayCostDrivers(report, digits).residual, report.unexplainedUsd, Pow10(digits), 3.0)
  {
    RowsStay(report, digits);
    hide Near, WithinUnits, InUnits, Pow10;
    var delta, d, scale := report.deltaUsd, report.driversUsd, Pow10(digits);
    RoundingIsNear(delta, scale);
    RoundingIsNear(d[0], scale);
    RoundingIsNear(d[1], scale);
    RoundingIsNear(d[2], scale);
    RoundingIsNear(d[3], scale);
    RoundingIsNear(d[4], scale);
    var u0, x0 := InUnits(delta, scale) - InUnits(d[0], scale), delta - d[0];
    var u1, x1 := u0 - InUnits(d[1], scale), x0 - d[1];
    var u2, x2 := u1 - InUnits(d[2], scale), x1 - d[2];
    var u3, x3 := u2 - InUnits(d[3], scale), x2 - d[3];
    NearDifference(InUnits(delta, scale), delta, InUnits(d[0], scale), d[0], scale, 0.5, 0.5);
    NearDifference(u0, x0, InUnits(d[1], scale), d[1], scale, 1.0, 0.5);
    NearDifference(u1, x1, InUnits(d[2], scale), d[2], scale, 1.5, 0.5);
    NearDifference(u2, x2, InUnits(d[3], scale), d[3], scale, 2.0, 0.5);
    NearDifference(u3, x3, InUnits(d[4], scale), d[4], scale, 2.5, 0.5);
    assert u3 - InUnits(d[4], scale) == InUnits(delta, scale) - SumUnits(d, scale);
    QuotientNear(u3 - InUnits(d[4], scale), DisplayCostDrivers(report, digits).residual, report.unexplainedUsd, scale);
  }

  lemma QuotientNear(units: int, residual: real, usd: real, scale: int)
    requires scale >= 1 && residual == units as real / scale as real && Near(units, usd, scale, 3.0)
    ensures WithinUnits(residual, usd, scale, 3.0)
  {
    Cancel(units as real, scale as real);
  }
}

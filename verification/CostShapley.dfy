/**
 * Five-factor Shapley attribution over a table of 32 subset values
 * (apps/web/lib/cost-drivers.ts:117-138).
 */
module CostShapley {

  /** One value per subset of the five factors; bit i of the index stands for factor i. */
  type SubsetTable = v: seq<real> | |v| == 32 witness seq(32, _ => 0.0)

  function Pow2(i: nat): nat
    requires i < 5
  {
    if i == 0 then 1 else if i == 1 then 2 else if i == 2 then 4 else if i == 3 then 8 else 16
  }

  /** `mask >> i`. */
  function Shift(mask: nat, i: nat): nat
    requires i < 5
  {
    if i == 0 then mask else if i == 1 then mask / 2 else if i == 2 then mask / 4 else if i == 3 then mask / 8 else mask / 16
  }

  predicate HasBit(mask: nat, i: nat)
    requires i < 5
  {
    Shift(mask, i) % 2 == 1
  }

  ghost function BitCount(mask: nat): nat {
    if mask == 0 then 0 else mask % 2 + BitCount(mask / 2)
  }

  /** The mask without its lowest set bit, `bits & (bits - 1)`. */
  function ClearLowest(bits: nat): (rest: nat)
    requires bits > 0
    ensures rest < bits
    ensures BitCount(rest) == BitCount(bits) - 1
  {
    if bits % 2 == 1 then bits - 1 else 2 * ClearLowest(bits / 2)
  }

  function Factorial(n: nat): nat
    requires n <= 5
  {
    if n <= 1 then 1 else if n == 2 then 2 else if n == 3 then 6 else if n == 4 then 24 else 120
  }

  /** The share of the orderings in which exactly the given factors come first. */
  function Weight(count: nat): real
    requires count <= 4
  {
    (Factorial(count) * Factorial(4 - count)) as real / Factorial(5) as real
  }

  /** A gain times `Weight(count)`, spelled out so that it stays linear in the gain. */
  ghost function Weighted(count: nat, gain: real): real {
    if count == 0 || count == 4 then gain / 5.0
    else if count == 1 || count == 3 then gain / 20.0
    else gain / 30.0
  }

  lemma WeightedIs(count: nat, gain: real)
    requires count <= 4
    ensures Weighted(count, gain) == Weight(count) * gain
  {
    if count == 0 {} else if count == 1 {} else if count == 2 {} else if count == 3 {} else {}
  }

  /** What factor `i` adds when it joins the factors of `mask`, weighted. */
  ghost function Marginal(v: SubsetTable, i: nat, mask: nat): real
    requires i < 5 && mask < 32
  {
    if HasBit(mask, i) || mask + Pow2(i) >= 32 then 0.0
    else Weighted(BitCount(mask), v[mask + Pow2(i)] - v[mask])
  }

  ghost function Contribution(v: SubsetTable, i: nat, masks: nat): real
    requires i < 5 && masks <= 32
    decreases masks
  {
    if masks == 0 then 0.0 else Contribution(v, i, masks - 1) + Marginal(v, i, masks - 1)
  }

  ghost function Driver(v: SubsetTable, i: nat): real
    requires i < 5
  {
    Contribution(v, i, |v|)
  }

  method ComputeDriver(v: SubsetTable, index: nat) returns (contribution: real)
    requires index < 5
    ensures contribution == Driver(v, index)
  {
    contribution := 0.0;
    for mask := 0 to 32
      invariant contribution == Contribution(v, index, mask)
    {
      var marginal := ComputeMarginal(v, index, mask);
      contribution := contribution + marginal;
    }
  }

  method ComputeMarginal(v: SubsetTable, index: nat, mask: nat) returns (marginal: real)
    requires index < 5 && mask < 32
    ensures marginal == Marginal(v, index, mask)
  {
    hide HasBit, BitCount, Weight, Weighted;
    if HasBit(mask, index) { return 0.0; }
    WithoutBit(mask, index);
    var count := CountBits(mask);
    marginal := Weight(count) * (v[mask + Pow2(index)] - v[mask]);
    WeightedIs(count, v[mask + Pow2(index)] - v[mask]);
  }

  method CountBits(mask: nat) returns (count: nat)
    ensures count == BitCount(mask)
  {
    count := 0;
    var bits := mask;
    while bits > 0
      invariant bits >= 0 && count + BitCount(bits) == BitCount(mask)
    {
      bits := ClearLowest(bits);
      count := count + 1;
    }
  }

  lemma BitCounts()
    ensures BitCount(0) == 0 && BitCount(1) == 1 && BitCount(2) == 1 && BitCount(3) == 2 && BitCount(4) == 1 && BitCount(5) == 2 && BitCount(6) == 2 && BitCount(7) == 3
    ensures BitCount(8) == 1 && BitCount(9) == 2 && BitCount(10) == 2 && BitCount(11) == 3 && BitCount(12) == 2 && BitCount(13) == 3 && BitCount(14) == 3 && BitCount(15) == 4
    ensures BitCount(16) == 1 && BitCount(17) == 2 && BitCount(18) == 2 && BitCount(19) == 3 && BitCount(20) == 2 && BitCount(21) == 3 && BitCount(22) == 3 && BitCount(23) == 4
    ensures BitCount(24) == 2 && BitCount(25) == 3 && BitCount(26) == 3 && BitCount(27) == 4 && BitCount(28) == 3 && BitCount(29) == 4 && BitCount(30) == 4 && BitCount(31) == 5
  {
  }

  lemma WithoutBit(mask: nat, i: nat)
    requires i < 5 && mask < 32 && !HasBit(mask, i)
    ensures mask + Pow2(i) < 32 && BitCount(mask) <= 4
  {
    BitCounts();
  }

  // ------------------------------------------------- the drivers spelled out

  lemma EightMore(v: SubsetTable, i: nat, n: nat)
    requires i < 5 && n + 8 <= 32
    ensures Contribution(v, i, n + 8) == Contribution(v, i, n)
      + Marginal(v, i, n) + Marginal(v, i, n + 1) + Marginal(v, i, n + 2) + Marginal(v, i, n + 3)
      + Marginal(v, i, n + 4) + Marginal(v, i, n + 5) + Marginal(v, i, n + 6) + Marginal(v, i, n + 7)
  {
    assert Contribution(v, i, n + 2) == Contribution(v, i, n) + Marginal(v, i, n) + Marginal(v, i, n + 1);
    assert Contribution(v, i, n + 4) == Contribution(v, i, n + 2) + Marginal(v, i, n + 2) + Marginal(v, i, n + 3);
    assert Contribution(v, i, n + 6) == Contribution(v, i, n + 4) + Marginal(v, i, n + 4) + Marginal(v, i, n + 5);
  }

  lemma Spelled(v: SubsetTable, i: nat)
    requires i < 5
    ensures Driver(v, i) ==
      Marginal(v, i, 0) + Marginal(v, i, 1) + Marginal(v, i, 2) + Marginal(v, i, 3) + Marginal(v, i, 4) + Marginal(v, i, 5) + Marginal(v, i, 6) + Marginal(v, i, 7)
      + Marginal(v, i, 8) + Marginal(v, i, 9) + Marginal(v, i, 10) + Marginal(v, i, 11) + Marginal(v, i, 12) + Marginal(v, i, 13) + Marginal(v, i, 14) + Marginal(v, i, 15)
      + Marginal(v, i, 16) + Marginal(v, i, 17) + Marginal(v, i, 18) + Marginal(v, i, 19) + Marginal(v, i, 20) + Marginal(v, i, 21) + Marginal(v, i, 22) + Marginal(v, i, 23)
      + Marginal(v, i, 24) + Marginal(v, i, 25) + Marginal(v, i, 26) + Marginal(v, i, 27) + Marginal(v, i, 28) + Marginal(v, i, 29) + Marginal(v, i, 30) + Marginal(v, i, 31)
  {
    EightMore(v, i, 0);
    EightMore(v, i, 8);
    EightMore(v, i, 16);
    EightMore(v, i, 24);
  }

  lemma VolumeTerms(v: SubsetTable)
    ensures 60.0 * Driver(v, 0) ==
      12.0 * (v[1] - v[0]) + 3.0 * (v[3] - v[2]) + 3.0 * (v[5] - v[4]) + 2.0 * (v[7] - v[6])
      + 3.0 * (v[9] - v[8]) + 2.0 * (v[11] - v[10]) + 2.0 * (v[13] - v[12]) + 3.0 * (v[15] - v[14])
      + 3.0 * (v[17] - v[16]) + 2.0 * (v[19] - v[18]) + 2.0 * (v[21] - v[20]) + 3.0 * (v[23] - v[22])
      + 2.0 * (v[25] - v[24]) + 3.0 * (v[27] - v[26]) + 3.0 * (v[29] - v[28]) + 12.0 * (v[31] - v[30])
  {
    BitCounts();
    Spelled(v, 0);
  }

  lemma ModelMixTerms(v: SubsetTable)
    ensures 60.0 * Driver(v, 1) ==
      12.0 * (v[2] - v[0]) + 3.0 * (v[3] - v[1]) + 3.0 * (v[6] - v[4]) + 2.0 * (v[7] - v[5])
      + 3.0 * (v[10] - v[8]) + 2.0 * (v[11] - v[9]) + 2.0 * (v[14] - v[12]) + 3.0 * (v[15] - v[13])
      + 3.0 * (v[18] - v[16]) + 2.0 * (v[19] - v[17]) + 2.0 * (v[22] - v[20]) + 3.0 * (v[23] - v[21])
      + 2.0 * (v[26] - v[24]) + 3.0 * (v[27] - v[25]) + 3.0 * (v[30] - v[28]) + 12.0 * (v[31] - v[29])
  {
    BitCounts();
    Spelled(v, 1);
  }

  lemma OutputMixTerms(v: SubsetTable)
    ensures 60.0 * Driver(v, 2) ==
      12.0 * (v[4] - v[0]) + 3.0 * (v[5] - v[1]) + 3.0 * (v[6] - v[2]) + 2.0 * (v[7] - v[3])
      + 3.0 * (v[12] - v[8]) + 2.0 * (v[13] - v[9]) + 2.0 * (v[14] - v[10]) + 3.0 * (v[15] - v[11])
      + 3.0 * (v[20] - v[16]) + 2.0 * (v[21] - v[17]) + 2.0 * (v[22] - v[18]) + 3.0 * (v[23] - v[19])
      + 2.0 * (v[28] - v[24]) + 3.0 * (v[29] - v[25]) + 3.0 * (v[30] - v[26]) + 12.0 * (v[31] - v[27])
  {
    BitCounts();
    Spelled(v, 2);
  }

  lemma CacheMixTerms(v: SubsetTable)
    ensures 60.0 * Driver(v, 3) ==
      12.0 * (v[8] - v[0]) + 3.0 * (v[9] - v[1]) + 3.0 * (v[10] - v[2]) + 2.0 * (v[11] - v[3])
      + 3.0 * (v[12] - v[4]) + 2.0 * (v[13] - v[5]) + 2.0 * (v[14] - v[6]) + 3.0 * (v[15] - v[7])
      + 3.0 * (v[24] - v[16]) + 2.0 * (v[25] - v[17]) + 2.0 * (v[26] - v[18]) + 3.0 * (v[27] - v[19])
      + 2.0 * (v[28] - v[20]) + 3.0 * (v[29] - v[21]) + 3.0 * (v[30] - v[22]) + 12.0 * (v[31] - v[23])
  {
    BitCounts();
    Spelled(v, 3);
  }

  lemma EffectiveRatesTerms(v: SubsetTable)
    ensures 60.0 * Driver(v, 4) ==
      12.0 * (v[16] - v[0]) + 3.0 * (v[17] - v[1]) + 3.0 * (v[18] - v[2]) + 2.0 * (v[19] - v[3])
      + 3.0 * (v[20] - v[4]) + 2.0 * (v[21] - v[5]) + 2.0 * (v[22] - v[6]) + 3.0 * (v[23] - v[7])
      + 3.0 * (v[24] - v[8]) + 2.0 * (v[25] - v[9]) + 2.0 * (v[26] - v[10]) + 3.0 * (v[27] - v[11])
      + 2.0 * (v[28] - v[12]) + 3.0 * (v[29] - v[13]) + 3.0 * (v[30] - v[14]) + 12.0 * (v[31] - v[15])
  {
    BitCounts();
    Spelled(v, 4);
  }

  // ------------------------------------------------------------- main results

  /** Efficiency: the five drivers share out exactly the change from no factor to all five. */
  lemma Efficiency(v: SubsetTable)
    ensures Driver(v, 0) + Driver(v, 1) + Driver(v, 2) + Driver(v, 3) + Driver(v, 4) == v[31] - v[0]
  {
    VolumeTerms(v);
    ModelMixTerms(v);
    OutputMixTerms(v);
    CacheMixTerms(v);
    EffectiveRatesTerms(v);
  }

  /** Exchanging every subset with its complement negates every driver. */
  lemma Antisymmetry(v: SubsetTable, r: SubsetTable, i: nat)
    requires i < 5
    requires forall m :: 0 <= m < 32 ==> r[m] == v[31 - m]
    ensures Driver(r, i) == -Driver(v, i)
  {
    if i == 0 {
      VolumeTerms(v); VolumeTerms(r);
    } else if i == 1 {
      ModelMixTerms(v); ModelMixTerms(r);
    } else if i == 2 {
      OutputMixTerms(v); OutputMixTerms(r);
    } else if i == 3 {
      CacheMixTerms(v); CacheMixTerms(r);
    } else {
      EffectiveRatesTerms(v); EffectiveRatesTerms(r);
    }
  }

  lemma MarginalAdds(a: SubsetTable, b: SubsetTable, sum: SubsetTable, i: nat, mask: nat)
    requires i < 5 && mask < 32 && forall m :: 0 <= m < 32 ==> sum[m] == a[m] + b[m]
    ensures Marginal(sum, i, mask) == Marginal(a, i, mask) + Marginal(b, i, mask)
  {
    hide BitCount;
  }

  /** Additivity: what a factor gets of a sum of tables is the sum of what it gets of each. */
  lemma {:induction false} Additivity(a: SubsetTable, b: SubsetTable, sum: SubsetTable, i: nat, masks: nat)
    requires i < 5 && masks <= 32
    requires forall m :: 0 <= m < 32 ==> sum[m] == a[m] + b[m]
    ensures Contribution(sum, i, masks) == Contribution(a, i, masks) + Contribution(b, i, masks)
    decreases masks
  {
    hide Marginal;
    if masks > 0 {
      Additivity(a, b, sum, i, masks - 1);
      MarginalAdds(a, b, sum, i, masks - 1);
    }
  }

  /** So for the drivers. */
  lemma DriversAdd(a: SubsetTable, b: SubsetTable, sum: SubsetTable, i: nat)
    requires i < 5
    requires forall m :: 0 <= m < 32 ==> sum[m] == a[m] + b[m]
    ensures Driver(sum, i) == Driver(a, i) + Driver(b, i)
  {
    hide Contribution;
    Additivity(a, b, sum, i, 32);
  }

  /** The subset with factor 0 and factor `i` exchanged. */
  ghost function Exchanged(mask: nat, i: nat): int
    requires 1 <= i < 5
  {
    if HasBit(mask, 0) && !HasBit(mask, i) then mask - 1 + Pow2(i)
    else if !HasBit(mask, 0) && HasBit(mask, i) then mask + 1 - Pow2(i)
    else mask
  }

  lemma ExchangedWith1(v: SubsetTable, r: SubsetTable)
    requires forall m: nat | m < 32 :: 0 <= Exchanged(m, 1) < 32 && r[m] == v[Exchanged(m, 1)]
    ensures r[0] == v[0] && r[1] == v[2] && r[2] == v[1] && r[3] == v[3] && r[4] == v[4] && r[5] == v[6] && r[6] == v[5] && r[7] == v[7]
    ensures r[8] == v[8] && r[9] == v[10] && r[10] == v[9] && r[11] == v[11] && r[12] == v[12] && r[13] == v[14] && r[14] == v[13] && r[15] == v[15]
    ensures r[16] == v[16] && r[17] == v[18] && r[18] == v[17] && r[19] == v[19] && r[20] == v[20] && r[21] == v[22] && r[22] == v[21] && r[23] == v[23]
    ensures r[24] == v[24] && r[25] == v[26] && r[26] == v[25] && r[27] == v[27] && r[28] == v[28] && r[29] == v[30] && r[30] == v[29] && r[31] == v[31]
  {
  }

  lemma ExchangedWith2(v: SubsetTable, r: SubsetTable)
    requires forall m: nat | m < 32 :: 0 <= Exchanged(m, 2) < 32 && r[m] == v[Exchanged(m, 2)]
    ensures r[0] == v[0] && r[1] == v[4] && r[2] == v[2] && r[3] == v[6] && r[4] == v[1] && r[5] == v[5] && r[6] == v[3] && r[7] == v[7]
    ensures r[8] == v[8] && r[9] == v[12] && r[10] == v[10] && r[11] == v[14] && r[12] == v[9] && r[13] == v[13] && r[14] == v[11] && r[15] == v[15]
    ensures r[16] == v[16] && r[17] == v[20] && r[18] == v[18] && r[19] == v[22] && r[20] == v[17] && r[21] == v[21] && r[22] == v[19] && r[23] == v[23]
    ensures r[24] == v[24] && r[25] == v[28] && r[26] == v[26] && r[27] == v[30] && r[28] == v[25] && r[29] == v[29] && r[30] == v[27] && r[31] == v[31]
  {
  }

  lemma ExchangedWith3(v: SubsetTable, r: SubsetTable)
    requires forall m: nat | m < 32 :: 0 <= Exchanged(m, 3) < 32 && r[m] == v[Exchanged(m, 3)]
    ensures r[0] == v[0] && r[1] == v[8] && r[2] == v[2] && r[3] == v[10] && r[4] == v[4] && r[5] == v[12] && r[6] == v[6] && r[7] == v[14]
    ensures r[8] == v[1] && r[9] == v[9] && r[10] == v[3] && r[11] == v[11] && r[12] == v[5] && r[13] == v[13] && r[14] == v[7] && r[15] == v[15]
    ensures r[16] == v[16] && r[17] == v[24] && r[18] == v[18] && r[19] == v[26] && r[20] == v[20] && r[21] == v[28] && r[22] == v[22] && r[23] == v[30]
    ensures r[24] == v[17] && r[25] == v[25] && r[26] == v[19] && r[27] == v[27] && r[28] == v[21] && r[29] == v[29] && r[30] == v[23] && r[31] == v[31]
  {
  }

  lemma ExchangedWith4(v: SubsetTable, r: SubsetTable)
    requires forall m: nat | m < 32 :: 0 <= Exchanged(m, 4) < 32 && r[m] == v[Exchanged(m, 4)]
    ensures r[0] == v[0] && r[1] == v[16] && r[2] == v[2] && r[3] == v[18] && r[4] == v[4] && r[5] == v[20] && r[6] == v[6] && r[7] == v[22]
    ensures r[8] == v[8] && r[9] == v[24] && r[10] == v[10] && r[11] == v[26] && r[12] == v[12] && r[13] == v[28] && r[14] == v[14] && r[15] == v[30]
    ensures r[16] == v[1] && r[17] == v[17] && r[18] == v[3] && r[19] == v[19] && r[20] == v[5] && r[21] == v[21] && r[22] == v[7] && r[23] == v[23]
    ensures r[24] == v[9] && r[25] == v[25] && r[26] == v[11] && r[27] == v[27] && r[28] == v[13] && r[29] == v[29] && r[30] == v[15] && r[31] == v[31]
  {
  }

  /** Symmetry: exchanging two factors in every subset exchanges their drivers. */
  lemma Symmetry(v: SubsetTable, r: SubsetTable, i: nat)
    requires 1 <= i < 5
    requires forall m: nat | m < 32 :: 0 <= Exchanged(m, i) < 32 && r[m] == v[Exchanged(m, i)]
    ensures Driver(r, 0) == Driver(v, i) && Driver(r, i) == Driver(v, 0)
  {
    hide Exchanged, Driver;
    VolumeTerms(v);
    VolumeTerms(r);
    if i == 1 {
      ExchangedWith1(v, r); ModelMixTerms(v); ModelMixTerms(r);
    } else if i == 2 {
      ExchangedWith2(v, r); OutputMixTerms(v); OutputMixTerms(r);
    } else if i == 3 {
      ExchangedWith3(v, r); CacheMixTerms(v); CacheMixTerms(r);
    } else {
      ExchangedWith4(v, r); EffectiveRatesTerms(v); EffectiveRatesTerms(r);
    }
  }

  lemma NullMarginal(v: SubsetTable, i: nat, mask: nat)
    requires i < 5 && mask < 32
    requires !HasBit(mask, i) && mask + Pow2(i) < 32 ==> v[mask + Pow2(i)] == v[mask]
    ensures Marginal(v, i, mask) == 0.0
  {
  }

  /** A factor that changes no subset's value gets nothing. */
  lemma {:induction false} NullFactor(v: SubsetTable, i: nat, masks: nat)
    requires i < 5 && masks <= 32
    requires forall m: nat :: m + Pow2(i) < 32 && !HasBit(m, i) ==> v[m + Pow2(i)] == v[m]
    ensures Contribution(v, i, masks) == 0.0
    decreases masks
  {
    if masks > 0 {
      NullFactor(v, i, masks - 1);
      NullMarginal(v, i, masks - 1);
    }
  }
}

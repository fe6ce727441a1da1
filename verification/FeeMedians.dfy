/** The weighted-median fee rate estimator. Floating-point numbers are modelled as reals. */
module FeeMedians {
  import opened Wrappers
  import opened StableSort

  const MINIMUM_TX_FEE_RATE: real := 1.0
  const PROPORTION_RESOLUTION: nat := 10_000
  const U64_MAX: nat := 0xffff_ffff_ffff_ffff

  datatype FeeRateAndWeight = FeeRateAndWeight(feeRate: real, weight: nat)

  datatype FeeRateEstimate = FeeRateEstimate(high: real, middle: real, low: real)

  const RATE: FeeRateAndWeight -> real := (f: FeeRateAndWeight) => f.feeRate

  // ---------- Weighted percentiles ----------

  function TotalWeight(fees: seq<FeeRateAndWeight>): nat {
    if fees == [] then 0 else TotalWeight(fees[..|fees| - 1]) + fees[|fees| - 1].weight
  }

  /** The percentile of the i-th entry: the weight before it and half its own, as a share of the total. */
  function Percentile(fees: seq<FeeRateAndWeight>, i: nat): real
    requires i < |fees| && TotalWeight(fees) > 0
  {
    (TotalWeight(fees[..i]) as real + fees[i].weight as real / 2.0) / TotalWeight(fees) as real
  }

  lemma DivisionKeepsOrder(a: real, b: real, c: real)
    requires a <= b && c > 0.0
    ensures a / c <= b / c
  {
  }

  lemma WeightOfPrefix(fees: seq<FeeRateAndWeight>, i: nat)
    requires i < |fees|
    ensures TotalWeight(fees[..i + 1]) == TotalWeight(fees[..i]) + fees[i].weight
  {
    assert fees[..i + 1][..i] == fees[..i];
  }

  lemma NextPercentile(fees: seq<FeeRateAndWeight>, i: nat)
    requires i + 1 < |fees| && TotalWeight(fees) > 0
    ensures Percentile(fees, i) <= Percentile(fees, i + 1)
  {
    WeightOfPrefix(fees, i);
    DivisionKeepsOrder(TotalWeight(fees[..i]) as real + fees[i].weight as real / 2.0,
                       TotalWeight(fees[..i + 1]) as real + fees[i + 1].weight as real / 2.0,
                       TotalWeight(fees) as real);
  }

  lemma {:induction false} PercentilesAscend(fees: seq<FeeRateAndWeight>, i: nat, j: nat)
    requires i <= j < |fees| && TotalWeight(fees) > 0
    ensures Percentile(fees, i) <= Percentile(fees, j)
    decreases j - i
  {
    if i < j {
      PercentilesAscend(fees, i, j - 1);
      NextPercentile(fees, j - 1);
    }
  }

  /** How many of the first entries have a percentile below the target. */
  function Below(fees: seq<FeeRateAndWeight>, target: real, i: nat): (k: nat)
    requires i <= |fees| && TotalWeight(fees) > 0
    ensures i <= k <= |fees|
    ensures forall j :: i <= j < k ==> Percentile(fees, j) < target
    ensures k < |fees| ==> Percentile(fees, k) >= target
    decreases |fees| - i
  {
    if i < |fees| && Percentile(fees, i) < target then Below(fees, target, i + 1) else i
  }

  function Interpolate(vk: real, vk1: real, pk: real, pk1: real, target: real): real
    requires pk < pk1
  {
    vk + (target - pk) / (pk1 - pk) * (vk1 - vk)
  }

  /** The value at a percentile: linear between neighbouring entries, constant outside. */
  function ValueAt(fees: seq<FeeRateAndWeight>, target: real): real
    requires fees != [] && TotalWeight(fees) > 0
  {
    var k := Below(fees, target, 0);
    if k == 0 then fees[0].feeRate
    else if k == |fees| then fees[|fees| - 1].feeRate
    else Interpolate(fees[k - 1].feeRate, fees[k].feeRate, Percentile(fees, k - 1), Percentile(fees, k), target)
  }

  lemma ShareIsBetween(x: real, d: real)
    requires 0.0 <= x <= d && d > 0.0
    ensures 0.0 <= x / d <= 1.0
  {
  }

  lemma ShareOfGain(f: real, gain: real)
    requires 0.0 <= f <= 1.0 && gain >= 0.0
    ensures 0.0 <= f * gain <= gain
  {
  }

  lemma InterpolateIsBetween(vk: real, vk1: real, pk: real, pk1: real, target: real)
    requires pk < target <= pk1 && vk <= vk1
    ensures vk <= Interpolate(vk, vk1, pk, pk1, target) <= vk1
  {
    ShareIsBetween(target - pk, pk1 - pk);
    ShareOfGain((target - pk) / (pk1 - pk), vk1 - vk);
  }

  lemma InterpolateAscends(vk: real, vk1: real, pk: real, pk1: real, x: real, y: real)
    requires pk < pk1 && x <= y && vk <= vk1
    ensures Interpolate(vk, vk1, pk, pk1, x) <= Interpolate(vk, vk1, pk, pk1, y)
  {
    DivisionKeepsOrder(x - pk, y - pk, pk1 - pk);
    var fx, fy, gain := (x - pk) / (pk1 - pk), (y - pk) / (pk1 - pk), vk1 - vk;
    assert fx * gain <= fy * gain;
  }

  /** Every value lies between the smallest and the largest rate. */
  lemma ValueIsBetween(fees: seq<FeeRateAndWeight>, target: real)
    requires fees != [] && TotalWeight(fees) > 0 && SortedBy(fees, RATE)
    ensures fees[0].feeRate <= ValueAt(fees, target) <= fees[|fees| - 1].feeRate
  {
    var k := Below(fees, target, 0);
    assert forall i, j :: 0 <= i < j < |fees| ==> RATE(fees[i]) <= RATE(fees[j]);
    if 0 < k < |fees| {
      assert RATE(fees[k - 1]) <= RATE(fees[k]);
      InterpolateIsBetween(fees[k - 1].feeRate, fees[k].feeRate, Percentile(fees, k - 1), Percentile(fees, k), target);
    }
  }

  /** The value at a percentile is at least the rate of the last entry below it, and at most that of the next one. */
  lemma ValueNearEntries(fees: seq<FeeRateAndWeight>, target: real)
    requires fees != [] && TotalWeight(fees) > 0 && SortedBy(fees, RATE)
    ensures var k := Below(fees, target, 0);
            && (k > 0 ==> fees[k - 1].feeRate <= ValueAt(fees, target))
            && (k < |fees| ==> ValueAt(fees, target) <= fees[k].feeRate)
  {
    var k := Below(fees, target, 0);
    if 0 < k < |fees| {
      assert RATE(fees[k - 1]) <= RATE(fees[k]);
      InterpolateIsBetween(fees[k - 1].feeRate, fees[k].feeRate, Percentile(fees, k - 1), Percentile(fees, k), target);
    }
  }

  lemma BelowAscends(fees: seq<FeeRateAndWeight>, x: real, y: real)
    requires TotalWeight(fees) > 0 && x <= y
    ensures Below(fees, x, 0) <= Below(fees, y, 0)
  {
    hide Percentile;
  }

  /** Higher percentiles have higher values. */
  lemma ValueAscends(fees: seq<FeeRateAndWeight>, x: real, y: real)
    requires fees != [] && TotalWeight(fees) > 0 && SortedBy(fees, RATE) && x <= y
    ensures ValueAt(fees, x) <= ValueAt(fees, y)
  {
    hide Percentile, Interpolate;
    var kx, ky := Below(fees, x, 0), Below(fees, y, 0);
    BelowAscends(fees, x, y);
    ValueNearEntries(fees, x);
    ValueNearEntries(fees, y);
    if kx < ky {
      assert RATE(fees[kx]) <= RATE(fees[ky - 1]);
    } else if 0 < kx < |fees| {
      assert RATE(fees[kx - 1]) <= RATE(fees[kx]);
      InterpolateAscends(fees[kx - 1].feeRate, fees[kx].feeRate, Percentile(fees, kx - 1), Percentile(fees, kx), x, y);
    }
  }

  /** Where it meets an entry of positive weight, the value is that entry's rate. */
  lemma ValueAtEntry(fees: seq<FeeRateAndWeight>, i: nat)
    requires i < |fees| && TotalWeight(fees) > 0 && fees[i].weight > 0
    ensures ValueAt(fees, Percentile(fees, i)) == fees[i].feeRate
  {
    var target := Percentile(fees, i);
    var k := Below(fees, target, 0);
    if i > 0 {
      EarlierIsBelow(fees, i);
      assert k >= i;
    }
    assert k <= i;
    if 0 < i {
      InterpolateHits(fees[i - 1].feeRate, fees[i].feeRate, Percentile(fees, i - 1), target);
    }
  }

  lemma InterpolateHits(vk: real, vk1: real, pk: real, pk1: real)
    requires pk < pk1
    ensures Interpolate(vk, vk1, pk, pk1, pk1) == vk1
  {
  }

  lemma EarlierIsBelow(fees: seq<FeeRateAndWeight>, i: nat)
    requires 0 < i < |fees| && TotalWeight(fees) > 0 && fees[i].weight > 0
    ensures forall j :: 0 <= j < i ==> Percentile(fees, j) < Percentile(fees, i)
  {
    hide Percentile;
    LastStepIsStrict(fees, i);
    forall j | 0 <= j < i
      ensures Percentile(fees, j) < Percentile(fees, i)
    {
      PercentilesAscend(fees, j, i - 1);
    }
  }

  lemma LastStepIsStrict(fees: seq<FeeRateAndWeight>, i: nat)
    requires 0 < i < |fees| && TotalWeight(fees) > 0 && fees[i].weight > 0
    ensures Percentile(fees, i - 1) < Percentile(fees, i)
  {
    WeightOfPrefix(fees, i - 1);
    var total := TotalWeight(fees) as real;
    var a := TotalWeight(fees[..i - 1]) as real + fees[i - 1].weight as real / 2.0;
    var b := TotalWeight(fees[..i]) as real + fees[i].weight as real / 2.0;
    DivisionIsStrict(a, b, total);
  }

  lemma DivisionIsStrict(a: real, b: real, c: real)
    requires a < b && c > 0.0
    ensures a / c < b / c
  {
    assert b / c == a / c + (b - a) / c;
    PositiveQuotient(b - a, c);
  }

  lemma PositiveQuotient(a: real, c: real)
    requires a > 0.0 && c > 0.0
    ensures a / c > 0.0
  {
  }

  // ---------- The block estimate ----------

  /** The estimate that the block estimate is meant to be. */
  function BlockEstimate(fees: seq<FeeRateAndWeight>): FeeRateEstimate
    requires fees != [] && TotalWeight(fees) > 0
  {
    FeeRateEstimate(ValueAt(fees, 0.95), ValueAt(fees, 0.5), ValueAt(fees, 0.05))
  }

  ghost predicate Ordered(e: FeeRateEstimate) {
    MINIMUM_TX_FEE_RATE <= e.low <= e.middle <= e.high
  }

  method SumWeights(fees: seq<FeeRateAndWeight>) returns (total: real)
    ensures total == TotalWeight(fees) as real
  {
    total := 0.0;
    for i := 0 to |fees|
      invariant total == TotalWeight(fees[..i]) as real
    {
      WeightOfPrefix(fees, i);
      total := total + fees[i].weight as real;
    }
    assert fees[..|fees|] == fees;
  }

  method Percentiles(fees: seq<FeeRateAndWeight>, total: real) returns (percentiles: seq<real>)
    requires total == TotalWeight(fees) as real && total > 0.0
    ensures |percentiles| == |fees| && forall i :: 0 <= i < |fees| ==> percentiles[i] == Percentile(fees, i)
  {
    percentiles := [];
    var cumulative := 0.0;
    for i := 0 to |fees|
      invariant cumulative == TotalWeight(fees[..i]) as real
      invariant |percentiles| == i && forall j :: 0 <= j < i ==> percentiles[j] == Percentile(fees, j)
    {
      WeightOfPrefix(fees, i);
      cumulative := cumulative + fees[i].weight as real;
      percentiles := percentiles + [(cumulative - fees[i].weight as real / 2.0) / total];
    }
  }

  /** Resuming the search where the previous, lower target left off finds the same place. */
  lemma {:induction false} BelowResumes(fees: seq<FeeRateAndWeight>, lower: real, target: real, i: nat, start: nat)
    requires TotalWeight(fees) > 0 && lower <= target && start <= i <= |fees|
    requires forall j :: start <= j < i ==> Percentile(fees, j) < lower
    ensures Below(fees, target, start) == Below(fees, target, i)
    decreases i - start
  {
    hide Percentile;
    if start < i {
      BelowResumes(fees, lower, target, i, start + 1);
    }
  }

  /** One pass over the targets, with an index that never goes back. */
  method FeeRateEstimateFromSortedWeightedFees(fees: seq<FeeRateAndWeight>) returns (estimate: FeeRateEstimate)
    requires fees != [] && TotalWeight(fees) > 0
    ensures estimate == BlockEstimate(fees)
  {
    hide TotalWeight, SortedBy, Percentile, ValueAt;
    var total := SumWeights(fees);
    var percentiles := Percentiles(fees, total);
    var targets := [0.05, 0.5, 0.95];
    var index: nat := 0;
    var values: seq<real> := [];
    for t := 0 to |targets|
      invariant index <= |fees| && |values| == t
      invariant t > 0 ==> forall j :: 0 <= j < index ==> percentiles[j] < targets[t - 1]
      invariant t == 0 ==> index == 0
      invariant forall u :: 0 <= u < t ==> values[u] == ValueAt(fees, targets[u])
    {
      var target := targets[t];
      BelowResumes(fees, if t > 0 then targets[t - 1] else target, target, index, 0);
      index := Advance(fees, percentiles, target, index);
      var v := ReadOff(fees, percentiles, target, index);
      values := values + [v];
    }
    estimate := FeeRateEstimate(values[2], values[1], values[0]);
  }

  /** The value at the place the search stopped; the divisor is never zero there. */
  method ReadOff(fees: seq<FeeRateAndWeight>, percentiles: seq<real>, target: real, index: nat) returns (v: real)
    requires fees != [] && TotalWeight(fees) > 0 && |percentiles| == |fees| && index == Below(fees, target, 0)
    requires forall i :: 0 <= i < |fees| ==> percentiles[i] == Percentile(fees, i)
    ensures v == ValueAt(fees, target)
  {
    hide Percentile, TotalWeight;
    if index == 0 {
      v := fees[0].feeRate;
    } else if index == |percentiles| {
      v := fees[|fees| - 1].feeRate;
    } else {
      var vk, vk1 := fees[index - 1].feeRate, fees[index].feeRate;
      var pk, pk1 := percentiles[index - 1], percentiles[index];
      v := vk + (target - pk) / (pk1 - pk) * (vk1 - vk);
    }
  }

  /** The inner loop. */
  method Advance(fees: seq<FeeRateAndWeight>, percentiles: seq<real>, target: real, start: nat) returns (index: nat)
    requires TotalWeight(fees) > 0 && |percentiles| == |fees| && start <= |fees|
    requires forall i :: 0 <= i < |fees| ==> percentiles[i] == Percentile(fees, i)
    ensures index == Below(fees, target, start)
  {
    hide Percentile;
    index := start;
    while index < |percentiles| && percentiles[index] < target
      invariant start <= index <= |fees|
      invariant Below(fees, target, start) == Below(fees, target, index)
    {
      index := index + 1;
    }
  }

  /** The three values of a block are in order, and none is below the minimum rate if no entry is. */
  lemma BlockEstimateOrdered(fees: seq<FeeRateAndWeight>)
    requires fees != [] && SortedBy(fees, RATE) && TotalWeight(fees) > 0
    requires forall i :: 0 <= i < |fees| ==> fees[i].feeRate >= MINIMUM_TX_FEE_RATE
    ensures Ordered(BlockEstimate(fees)) && BlockEstimate(fees).high <= fees[|fees| - 1].feeRate
  {
    hide ValueAt, TotalWeight, SortedBy;
    ValueIsBetween(fees, 0.05);
    ValueIsBetween(fees, 0.95);
    ValueAscends(fees, 0.05, 0.5);
    ValueAscends(fees, 0.5, 0.95);
  }

  // ---------- The entries of a block ----------

  /** A transaction receipt as far as fees are concerned. `cost` is what the configured metric makes
      of the receipt's length, and for contract payloads of its execution cost. */
  datatype Receipt = Burn | Coinbase | Paying(fee: nat, cost: nat)

  /** The fee per unit of cost, where no cost counts as one; never below the minimum. */
  predicate IsRate(r: Receipt, rate: real)
    requires r.Paying?
  {
    var units := if r.cost == 0 then 1 else r.cost;
    if r.fee < units then rate == 1.0 else rate * units as real == r.fee as real
  }

  function FeeRateAndWeightFromReceipt(r: Receipt): (e: Option<FeeRateAndWeight>)
    ensures e.Some? <==> r.Paying?
    ensures e.Some? ==> e.value.weight == r.cost && e.value.feeRate >= MINIMUM_TX_FEE_RATE
    ensures e.Some? ==> IsRate(r, e.value.feeRate)
  {
    if r.Paying? then
      var rate := r.fee as real / (if r.cost > 1 then r.cost else 1) as real;
      Some(FeeRateAndWeight(if rate < MINIMUM_TX_FEE_RATE then MINIMUM_TX_FEE_RATE else rate, r.cost))
    else None
  }

  function Entries(receipts: seq<Receipt>): (fees: seq<FeeRateAndWeight>)
    ensures forall i :: 0 <= i < |fees| ==> fees[i].feeRate >= MINIMUM_TX_FEE_RATE
  {
    if receipts == [] then []
    else
      var e := FeeRateAndWeightFromReceipt(receipts[0]);
      (if e.Some? then [e.value] else []) + Entries(receipts[1..])
  }

  /** How many of the first i receipts pay. */
  function PayingBefore(receipts: seq<Receipt>, i: nat): nat
    requires i <= |receipts|
  {
    if i == 0 then 0 else PayingBefore(receipts, i - 1) + if receipts[i - 1].Paying? then 1 else 0
  }

  lemma {:induction false} PayingBeforeShifts(receipts: seq<Receipt>, i: nat)
    requires 0 < i <= |receipts|
    ensures PayingBefore(receipts, i) == PayingBefore(receipts[1..], i - 1) + if receipts[0].Paying? then 1 else 0
  {
    if i > 1 {
      PayingBeforeShifts(receipts, i - 1);
    }
  }

  /** One entry for every paying receipt, in order, with its cost and its rate. */
  lemma {:induction false} EntryOfReceipt(receipts: seq<Receipt>, i: nat)
    requires i < |receipts| && receipts[i].Paying?
    ensures var k := PayingBefore(receipts, i);
            && k < |Entries(receipts)| && Entries(receipts)[k].weight == receipts[i].cost && IsRate(receipts[i], Entries(receipts)[k].feeRate)
  {
    hide FeeRateAndWeightFromReceipt;
    if i > 0 {
      EntryOfReceipt(receipts[1..], i - 1);
      PayingBeforeShifts(receipts, i);
    }
  }

  /** And no others. */
  lemma {:induction false} EntriesAreOfReceipts(receipts: seq<Receipt>)
    ensures |Entries(receipts)| == PayingBefore(receipts, |receipts|)
  {
    hide FeeRateAndWeightFromReceipt;
    if receipts != [] {
      EntriesAreOfReceipts(receipts[1..]);
      PayingBeforeShifts(receipts, |receipts|);
    }
  }

  lemma {:induction false} PrefixWeighsLess(fees: seq<FeeRateAndWeight>, i: nat)
    requires i <= |fees|
    ensures TotalWeight(fees[..i]) <= TotalWeight(fees)
    decreases |fees| - i
  {
    if i < |fees| {
      WeightOfPrefix(fees, i);
      PrefixWeighsLess(fees, i + 1);
    } else {
      assert fees[..i] == fees;
    }
  }

  /** A block that is not full counts as filled up with the minimum rate. */
  function Padded(fees: seq<FeeRateAndWeight>, fullBlockWeight: nat): seq<FeeRateAndWeight> {
    if TotalWeight(fees) < fullBlockWeight
    then fees + [FeeRateAndWeight(MINIMUM_TX_FEE_RATE, fullBlockWeight - TotalWeight(fees))]
    else fees
  }

  lemma PaddedIsFull(fees: seq<FeeRateAndWeight>, fullBlockWeight: nat)
    ensures TotalWeight(Padded(fees, fullBlockWeight)) >= fullBlockWeight
  {
    if TotalWeight(fees) < fullBlockWeight {
      assert Padded(fees, fullBlockWeight)[..|fees|] == fees;
    }
  }

  /** The padding loop; it gives up when the weights overflow 64 bits. */
  method MaybeAddMinimumFeeRate(fees: seq<FeeRateAndWeight>, fullBlockWeight: nat) returns (padded: seq<FeeRateAndWeight>)
    requires fullBlockWeight <= U64_MAX
    ensures padded == Padded(fees, fullBlockWeight)
  {
    var total := 0;
    for i := 0 to |fees|
      invariant total == TotalWeight(fees[..i])
    {
      WeightOfPrefix(fees, i);
      PrefixWeighsLess(fees, i + 1);
      if total + fees[i].weight > U64_MAX {
        return fees;
      }
      total := total + fees[i].weight;
    }
    assert fees[..|fees|] == fees;
    padded := fees;
    if total < fullBlockWeight {
      padded := fees + [FeeRateAndWeight(MINIMUM_TX_FEE_RATE, fullBlockWeight - total)];
    }
  }

  /** Sorting the entries keeps the total weight. */
  lemma {:induction false} InsertKeepsWeight(x: FeeRateAndWeight, s: seq<FeeRateAndWeight>)
    ensures TotalWeight(InsertBy(x, s, RATE)) == x.weight + TotalWeight(s)
  {
    if s == [] || RATE(x) <= RATE(s[0]) {
      WeightOfCons(x, s);
    } else {
      InsertKeepsWeight(x, s[1..]);
      WeightOfCons(s[0], InsertBy(x, s[1..], RATE));
      WeightOfCons(s[0], s[1..]);
      assert [s[0]] + s[1..] == s;
    }
  }

  lemma {:induction false} WeightOfCons(x: FeeRateAndWeight, s: seq<FeeRateAndWeight>)
    ensures TotalWeight([x] + s) == x.weight + TotalWeight(s)
  {
    if s == [] {
      assert ([x] + s)[..0] == [];
    } else {
      WeightOfCons(x, s[..|s| - 1]);
      assert ([x] + s)[..|s|] == [x] + s[..|s| - 1];
    }
  }

  lemma {:induction false} SortKeepsWeight(s: seq<FeeRateAndWeight>)
    ensures TotalWeight(SortBy(s, RATE)) == TotalWeight(s)
  {
    if s != [] {
      SortKeepsWeight(s[1..]);
      InsertKeepsWeight(s[0], SortBy(s[1..], RATE));
      WeightOfCons(s[0], s[1..]);
      assert [s[0]] + s[1..] == s;
    }
  }

  lemma SortKeepsMinimum(s: seq<FeeRateAndWeight>)
    requires forall i :: 0 <= i < |s| ==> s[i].feeRate >= MINIMUM_TX_FEE_RATE
    ensures forall i :: 0 <= i < |s| ==> SortBy(s, RATE)[i].feeRate >= MINIMUM_TX_FEE_RATE
  {
    SortPermutes(s, RATE);
    forall i | 0 <= i < |s|
      ensures SortBy(s, RATE)[i].feeRate >= MINIMUM_TX_FEE_RATE
    {
      assert SortBy(s, RATE)[i] in multiset(SortBy(s, RATE));
      assert SortBy(s, RATE)[i] in s;
    }
  }

  /** The measure of a block: the percentiles of its padded and sorted entries. */
  function BlockMeasure(receipts: seq<Receipt>): FeeRateEstimate {
    var sorted := SortBy(Padded(Entries(receipts), PROPORTION_RESOLUTION), RATE);
    MeasurableBlock(receipts);
    BlockEstimate(sorted)
  }

  /** Padding and sorting establish what the percentiles need, whatever the block. */
  lemma MeasurableBlock(receipts: seq<Receipt>)
    ensures var sorted := SortBy(Padded(Entries(receipts), PROPORTION_RESOLUTION), RATE);
            && sorted != [] && SortedBy(sorted, RATE) && TotalWeight(sorted) > 0
            && forall i :: 0 <= i < |sorted| ==> sorted[i].feeRate >= MINIMUM_TX_FEE_RATE
  {
    hide SortedBy;
    var padded := Padded(Entries(receipts), PROPORTION_RESOLUTION);
    PaddedIsFull(Entries(receipts), PROPORTION_RESOLUTION);
    SortSorts(padded, RATE);
    SortKeepsWeight(padded);
    SortKeepsMinimum(padded);
  }

  lemma BlockMeasureOrdered(receipts: seq<Receipt>)
    ensures Ordered(BlockMeasure(receipts))
  {
    hide BlockEstimate, SortedBy;
    MeasurableBlock(receipts);
    BlockEstimateOrdered(SortBy(Padded(Entries(receipts), PROPORTION_RESOLUTION), RATE));
  }

  function TotalCost(receipts: seq<Receipt>): nat {
    if receipts == [] then 0 else TotalCost(receipts[1..]) + if receipts[0].Paying? then receipts[0].cost else 0
  }

  lemma {:induction false} EntriesWeigh(receipts: seq<Receipt>)
    ensures TotalWeight(Entries(receipts)) == TotalCost(receipts)
  {
    if receipts != [] {
      EntriesWeigh(receipts[1..]);
      var e := FeeRateAndWeightFromReceipt(receipts[0]);
      if e.Some? {
        WeightOfCons(e.value, Entries(receipts[1..]));
      } else {
        assert [] + Entries(receipts[1..]) == Entries(receipts[1..]);
      }
    }
  }

  lemma RateIsUnique(r: Receipt, a: real, b: real)
    requires r.Paying? && IsRate(r, a) && IsRate(r, b)
    ensures a == b
  {
    var units := (if r.cost == 0 then 1 else r.cost) as real;
    if r.fee as real >= units {
      assert a == a * units / units && b == b * units / units;
    }
  }

  lemma {:induction false} UniformEntries(receipts: seq<Receipt>, rate: real)
    requires forall i :: 0 <= i < |receipts| && receipts[i].Paying? ==> IsRate(receipts[i], rate)
    ensures forall i :: 0 <= i < |Entries(receipts)| ==> Entries(receipts)[i].feeRate == rate
  {
    hide IsRate;
    if receipts != [] {
      UniformEntries(receipts[1..], rate);
      var e := FeeRateAndWeightFromReceipt(receipts[0]);
      if e.Some? {
        RateIsUnique(receipts[0], e.value.feeRate, rate);
      }
    }
  }

  lemma UniformEstimate(fees: seq<FeeRateAndWeight>, rate: real)
    requires fees != [] && TotalWeight(fees) > 0 && SortedBy(fees, RATE) && forall i :: 0 <= i < |fees| ==> fees[i].feeRate == rate
    ensures BlockEstimate(fees) == FeeRateEstimate(rate, rate, rate)
  {
    hide ValueAt, TotalWeight, SortedBy;
    ValueIsBetween(fees, 0.05);
    ValueIsBetween(fees, 0.5);
    ValueIsBetween(fees, 0.95);
  }

  /** A block whose paying transactions all pay one rate and together fill it measures that rate; one
      that nobody pays more than the minimum for measures the minimum. */
  lemma UniformBlock(receipts: seq<Receipt>, rate: real)
    requires forall i :: 0 <= i < |receipts| && receipts[i].Paying? ==> IsRate(receipts[i], rate)
    requires TotalCost(receipts) >= 10_000 || rate == 1.0
    ensures BlockMeasure(receipts) == FeeRateEstimate(rate, rate, rate)
  {
    hide BlockEstimate, SortedBy, SortBy, IsRate;
    MeasurableBlock(receipts);
    EntriesWeigh(receipts);
    UniformEntries(receipts, rate);
    var padded := Padded(Entries(receipts), PROPORTION_RESOLUTION);
    var sorted := SortBy(padded, RATE);
    SortPermutes(padded, RATE);
    forall i | 0 <= i < |sorted|
      ensures sorted[i].feeRate == rate
    {
      assert sorted[i] in multiset(sorted);
      assert sorted[i] in padded;
    }
    UniformEstimate(sorted, rate);
  }

  /** An entry of positive weight exactly at 5, 50 or 95 percent gives the low, middle or high value. */
  lemma EstimateAtEntry(fees: seq<FeeRateAndWeight>, i: nat)
    requires i < |fees| && TotalWeight(fees) > 0 && fees[i].weight > 0
    ensures Percentile(fees, i) == 0.05 ==> BlockEstimate(fees).low == fees[i].feeRate
    ensures Percentile(fees, i) == 0.5 ==> BlockEstimate(fees).middle == fees[i].feeRate
    ensures Percentile(fees, i) == 0.95 ==> BlockEstimate(fees).high == fees[i].feeRate
  {
    hide ValueAt, TotalWeight, Percentile;
    ValueAtEntry(fees, i);
  }

  /** Two entries of equal weight: the two rates, and their mean between them. */
  lemma TwoEqualEntries(a: real, b: real, weight: nat)
    requires weight > 0
    ensures var fees := [FeeRateAndWeight(a, weight), FeeRateAndWeight(b, weight)];
            TotalWeight(fees) > 0 && BlockEstimate(fees) == FeeRateEstimate(b, (a + b) / 2.0, a)
  {
    var fees := [FeeRateAndWeight(a, weight), FeeRateAndWeight(b, weight)];
    assert fees[..1] == [fees[0]] && fees[..1][..0] == [] && fees[..0] == [];
    assert TotalWeight(fees[..1]) == weight && TotalWeight(fees) == 2 * weight;
    var w := weight as real;
    assert Percentile(fees, 0) == 0.25 by { Quarter(w); }
    assert Percentile(fees, 1) == 0.75 by { Quarter(w); }
    TwoValues(fees, a, b);
  }

  lemma Quarter(w: real)
    requires w > 0.0
    ensures (0.0 + w / 2.0) / (2.0 * w) == 0.25 && (w + w / 2.0) / (2.0 * w) == 0.75
  {
  }

  lemma TwoValues(fees: seq<FeeRateAndWeight>, a: real, b: real)
    requires |fees| == 2 && TotalWeight(fees) > 0 && fees[0].feeRate == a && fees[1].feeRate == b
    requires Percentile(fees, 0) == 0.25 && Percentile(fees, 1) == 0.75
    ensures BlockEstimate(fees) == FeeRateEstimate(b, (a + b) / 2.0, a)
  {
    hide Percentile, TotalWeight;
    assert Below(fees, 0.05, 0) == 0;
    assert Below(fees, 0.5, 0) == 1;
    assert Below(fees, 0.95, 0) == 2;
  }

  // ---------- Medians ----------

  function Median(sorted: seq<real>): real
    requires sorted != []
  {
    var n := |sorted|;
    if n % 2 == 1 then sorted[n / 2] else (sorted[n / 2] + sorted[n / 2 - 1]) / 2.0
  }

  /** Half of a sorted list is on each side of its median, which is midway between the two in the middle. */
  lemma MedianIsMiddle(s: seq<real>)
    requires s != [] && SortedBy(s, ID)
    ensures forall i :: 0 <= i <= (|s| - 1) / 2 ==> s[i] <= Median(s)
    ensures forall i :: |s| / 2 <= i < |s| ==> Median(s) <= s[i]
    ensures 2.0 * Median(s) == s[(|s| - 1) / 2] + s[|s| / 2]
  {
    var low, high := (|s| - 1) / 2, |s| / 2;
    assert forall i, j :: 0 <= i < j < |s| ==> ID(s[i]) <= ID(s[j]);
    assert s[low] <= s[high];
  }

  /** Medians of separately sorted lists keep the pointwise order of the lists. */
  lemma MedianKeepsOrder(a: seq<real>, b: seq<real>)
    requires |a| == |b| > 0 && forall i :: 0 <= i < |a| ==> a[i] <= b[i]
    ensures Median(SortBy(a, ID)) <= Median(SortBy(b, ID))
  {
    hide SortBy;
    SortKeepsPointwiseOrder(a, b, ID, |a| / 2);
    if |a| % 2 == 0 {
      SortKeepsPointwiseOrder(a, b, ID, |a| / 2 - 1);
    }
  }

  /** A median is no smaller than a lower bound of the list. */
  lemma MedianAtLeast(a: seq<real>, low: real)
    requires a != [] && forall i :: 0 <= i < |a| ==> low <= a[i]
    ensures low <= Median(SortBy(a, ID))
  {
    hide SortBy, Median;
    SortPermutes(a, ID);
    var s := SortBy(a, ID);
    forall i | 0 <= i < |s|
      ensures low <= s[i]
    {
      assert s[i] in multiset(s);
      assert s[i] in a;
    }
    MedianOfBounded(s, low);
  }

  lemma MedianOfBounded(s: seq<real>, low: real)
    requires s != [] && forall i :: 0 <= i < |s| ==> low <= s[i]
    ensures low <= Median(s)
  {
  }

  function Lows(ms: seq<FeeRateEstimate>): (r: seq<real>)
    ensures |r| == |ms| && forall i :: 0 <= i < |ms| ==> r[i] == ms[i].low
  {
    seq(|ms|, i requires 0 <= i < |ms| => ms[i].low)
  }

  function Middles(ms: seq<FeeRateEstimate>): (r: seq<real>)
    ensures |r| == |ms| && forall i :: 0 <= i < |ms| ==> r[i] == ms[i].middle
  {
    seq(|ms|, i requires 0 <= i < |ms| => ms[i].middle)
  }

  function Highs(ms: seq<FeeRateEstimate>): (r: seq<real>)
    ensures |r| == |ms| && forall i :: 0 <= i < |ms| ==> r[i] == ms[i].high
  {
    seq(|ms|, i requires 0 <= i < |ms| => ms[i].high)
  }

  function MedianEstimate(ms: seq<FeeRateEstimate>): FeeRateEstimate
    requires ms != []
  {
    FeeRateEstimate(Median(SortBy(Highs(ms), ID)), Median(SortBy(Middles(ms), ID)), Median(SortBy(Lows(ms), ID)))
  }

  /** If every measure is in order, so is their median estimate. */
  lemma MedianEstimateOrdered(ms: seq<FeeRateEstimate>)
    requires ms != [] && forall i :: 0 <= i < |ms| ==> Ordered(ms[i])
    ensures Ordered(MedianEstimate(ms))
  {
    MedianAtLeast(Lows(ms), MINIMUM_TX_FEE_RATE);
    MedianKeepsOrder(Lows(ms), Middles(ms));
    MedianKeepsOrder(Middles(ms), Highs(ms));
  }

  // ---------- The estimator ----------

  datatype Measure = Measure(key: nat, estimate: FeeRateEstimate)

  /** The newest elements of a history, at most n of them. */
  function LastOf<T>(s: seq<T>, n: nat): (r: seq<T>) {
    if |s| <= n then s else s[|s| - n..]
  }

  lemma LastOfAppend<T>(s: seq<T>, x: T, n: nat)
    ensures LastOf(LastOf(s, n) + [x], n) == LastOf(s + [x], n)
  {
  }

  class WeightedMedianFeeRateEstimator {
    /** The rows of the table, in the order of their autoincremented keys. */
    var table: seq<Measure>
    var nextKey: nat
    const windowSize: nat

    /** The measures of all blocks so far. */
    ghost var history: seq<FeeRateEstimate>

    ghost predicate Valid()
      reads this
    {
      Windowed() && forall i :: 0 <= i < |history| ==> Ordered(history[i])
    }

    /** The table holds exactly the measures of the last windowSize blocks, under consecutive keys. */
    ghost predicate Windowed()
      reads this
    {
      nextKey == |history| + 1 && Holds(table, LastOf(history, windowSize), nextKey)
    }

    ghost static predicate Holds(rows: seq<Measure>, measures: seq<FeeRateEstimate>, next: nat) {
      && |rows| == |measures| < next
      && forall i :: 0 <= i < |rows| ==> rows[i] == Measure(next - |rows| + i, measures[i])
    }

    constructor (windowSize: nat)
      ensures Valid() && history == [] && this.windowSize == windowSize
    {
      this.windowSize := windowSize;
      table, nextKey, history := [], 1, [];
    }

    /** DELETE ... WHERE measure_key <= limit */
    method DeleteUpTo(limit: int) returns (ghost n: nat)
      modifies this`table
      ensures n <= |old(table)| && table == old(table)[n..]
      ensures forall i :: 0 <= i < n ==> old(table)[i].key <= limit
      ensures n < |old(table)| ==> old(table)[n].key > limit
    {
      n := 0;
      ghost var rows := table;
      while table != [] && table[0].key <= limit
        invariant n <= |rows| && table == rows[n..]
        invariant forall i :: 0 <= i < n ==> rows[i].key <= limit
        decreases |table|
      {
        table := table[1..];
        n := n + 1;
      }
    }

    method UpdateEstimate(measure: FeeRateEstimate)
      requires Windowed()
      modifies this
      ensures Windowed() && history == old(history) + [measure]
    {
      LastOfAppend(history, measure, windowSize);
      ghost var measures := LastOf(history, windowSize) + [measure];
      table := table + [Measure(nextKey, measure)];
      var newest: int := nextKey;
      nextKey := nextKey + 1;
      ghost var all := table;
      assert Holds(all, measures, nextKey);
      ghost var n := DeleteUpTo(newest - windowSize);
      history := history + [measure];
      assert n > 0 ==> all[n - 1].key == newest + n - |all|;
      assert n < |all| ==> all[n].key == newest + 1 + n - |all|;
      assert measures[n..] == LastOf(measures, windowSize);
    }

    /** Every block adds its measure, whatever the block. */
    method NotifyBlock(receipts: seq<Receipt>)
      requires Valid()
      modifies this
      ensures Valid() && history == old(history) + [BlockMeasure(receipts)]
    {
      hide BlockEstimate, SortedBy;
      MeasurableBlock(receipts);
      BlockMeasureOrdered(receipts);
      var fees := MaybeAddMinimumFeeRate(Entries(receipts), PROPORTION_RESOLUTION);
      if |fees| > 0 {
        var estimate := FeeRateEstimateFromSortedWeightedFees(SortBy(fees, RATE));
        UpdateEstimate(estimate);
      }
    }

    /** The columns of the newest rows, the newest first. */
    method ReadColumns() returns (highs: seq<real>, middles: seq<real>, lows: seq<real>)
      requires Windowed()
      ensures highs == Reverse(Highs(LastOf(history, windowSize)))
      ensures middles == Reverse(Middles(LastOf(history, windowSize)))
      ensures lows == Reverse(Lows(LastOf(history, windowSize)))
    {
      hide Reverse, LastOf, Highs, Middles, Lows, Ordered;
      highs, middles, lows := [], [], [];
      var n := |table|;
      for i := 0 to n
        invariant |highs| == |middles| == |lows| == i
        invariant forall j :: 0 <= j < i ==> highs[j] == table[n - 1 - j].estimate.high
        invariant forall j :: 0 <= j < i ==> middles[j] == table[n - 1 - j].estimate.middle
        invariant forall j :: 0 <= j < i ==> lows[j] == table[n - 1 - j].estimate.low
      {
        var e := table[n - 1 - i].estimate;
        highs, middles, lows := highs + [e.high], middles + [e.middle], lows + [e.low];
      }
    }

    /** Every estimate is the median of the last blocks' measures; it is in order and not below the minimum. */
    method GetRateEstimates() returns (r: Result<FeeRateEstimate>)
      requires Valid()
      ensures r.Failure? <==> history == [] || windowSize == 0
      ensures r.Success? ==> LastOf(history, windowSize) != [] && r.value == MedianEstimate(LastOf(history, windowSize))
      ensures r.Success? ==> Ordered(r.value)
    {
      hide Median, SortBy;
      ghost var ms := LastOf(history, windowSize);
      var highs, middles, lows := ReadColumns();
      if highs == [] || middles == [] || lows == [] {
        return Failure;
      }
      SortOfReverse(Highs(ms));
      SortOfReverse(Middles(ms));
      SortOfReverse(Lows(ms));
      MedianEstimateOrdered(ms);
      return Success(FeeRateEstimate(Median(SortBy(highs, ID)), Median(SortBy(middles, ID)), Median(SortBy(lows, ID))));
    }
  }
}

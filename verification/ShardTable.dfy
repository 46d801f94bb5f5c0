/** Cutting a table's key space into shards, in the machine arithmetic of the source. */
module ShardTables {
  import opened Keys
  import opened ScanQuery

  const TWO_64: int := 0x1_0000_0000_0000_0000
  const MIN_INT64: int := -0x8000_0000_0000_0000
  const MAX_INT64: int := 0x7FFF_FFFF_FFFF_FFFF

  /** The 64-bit value congruent to x that lies in [base, base + 2^64): base is MIN_INT64 for
      int64 and 0 for uint64. */
  function Wrap(x: int, base: int): (w: int)
    ensures base <= w < base + TWO_64
    ensures base <= x < base + TWO_64 ==> w == x
    ensures base + TWO_64 <= x < base + 2 * TWO_64 ==> w == x - TWO_64
    ensures base - TWO_64 <= x < base ==> w == x + TWO_64
  {
    base + (x - base) % TWO_64
  }

  /** A shard holds the rows whose first columns lie in [start, end); [] leaves a side open. */
  datatype TableShard = TableShard(startPKVals: Key, endPKVals: Key, shardNum: int, totalShards: int)

  datatype ShardResult = Shards(shards: seq<TableShard>) | BadSplits

  predicate InShard(r: Row, s: TableShard) {
    Admits(Generate([], s.startPKVals, s.endPKVals), r)
  }

  /** What ShardTable cuts a column on: a number, and the arithmetic it is computed in. */
  datatype Cut = Cut(minVal: int, maxVal: int, base: int) | FloatCut(low: real, high: real) | Uncuttable

  function CutOf(minE: Key, maxE: Key): Cut {
    if minE == [] || maxE == [] || |minE| != |maxE| then Uncuttable
    else match (minE[0], maxE[0])
      case (DInt(x), DInt(y)) => Cut(x, y, MIN_INT64)
      case (DUuid(x, _), DUuid(y, _)) => Cut(x, y, 0)
      case (DFloat(Finite(x)), DFloat(Finite(y))) => FloatCut(x, y)
      case _ => Uncuttable
  }

  /** valRange: maxVal - minVal as computed. */
  function Range(c: Cut): int
    requires c.Cut?
  {
    Wrap(c.maxVal - c.minVal, c.base)
  }

  /** max(valRange / numSplits, 1) */
  function Step(c: Cut, numSplits: int): (step: int)
    requires c.Cut? && Range(c) > 0 && numSplits >= 1
    ensures step >= 1
  {
    if Range(c) / numSplits > 1 then Range(c) / numSplits else 1
  }

  function SplitVal(c: Cut, numSplits: int, splitNum: int): int
    requires c.Cut? && Range(c) > 0 && numSplits >= 1
  {
    Wrap(c.minVal + Wrap(Step(c, numSplits) * splitNum, c.base), c.base)
  }

  /** max(valRange / numSplits, 1), in floating point. */
  function FloatStep(c: Cut, numSplits: int): real
    requires c.FloatCut? && numSplits >= 1
  {
    var step := (c.high - c.low) / numSplits as real;
    if step > 1.0 then step else 1.0
  }

  function FloatSplitVal(c: Cut, numSplits: int, splitNum: int): real
    requires c.FloatCut? && numSplits >= 1
  {
    c.low + FloatStep(c, numSplits) * splitNum as real
  }

  predicate Cuttable(c: Cut) {
    match c
    case Cut(_, _, _) => Range(c) > 0
    case FloatCut(low, high) => high - low > 0.0
    case Uncuttable => false
  }

  function CutDatum(c: Cut, val: int): Datum {
    if c.Cut? && c.base == 0 then DUuid(val, 0) else DInt(val)
  }

  /** The value at which shard number splitNum ends. */
  function CutPoint(c: Cut, numSplits: int, splitNum: int): Datum
    requires Cuttable(c) && numSplits >= 1
  {
    if c.FloatCut? then DFloat(Finite(FloatSplitVal(c, numSplits, splitNum)))
    else CutDatum(c, SplitVal(c, numSplits, splitNum))
  }

  /** Boundary number i of the shards: open at both ends. */
  function Boundary(c: Cut, numSplits: int, i: int): Key
    requires Cuttable(c) && numSplits >= 1
  {
    if 0 < i < numSplits then [CutPoint(c, numSplits, i)] else []
  }

  function ShardAt(c: Cut, numSplits: int, i: int): TableShard
    requires Cuttable(c) && numSplits >= 1
  {
    TableShard(Boundary(c, numSplits, i), Boundary(c, numSplits, i + 1), i + 1, numSplits)
  }

  method NextFloat(minVal: real, maxVal: real, numSplits: int, splitNum: int) returns (splittable: bool, nextMax: Key)
    requires 1 <= splitNum < numSplits
    ensures splittable == Cuttable(FloatCut(minVal, maxVal))
    ensures splittable ==> nextMax == Boundary(FloatCut(minVal, maxVal), numSplits, splitNum)
  {
    var valRange := maxVal - minVal;
    if valRange <= 0.0 {
      return false, [];
    }
    ghost var c := FloatCut(minVal, maxVal);
    var step := if valRange / numSplits as real > 1.0 then valRange / numSplits as real else 1.0;
    assert step == FloatStep(c, numSplits);
    hide FloatStep;
    var splitVal := minVal + step * splitNum as real;
    assert splitVal == FloatSplitVal(c, numSplits, splitNum);
    hide FloatSplitVal;
    return true, [DFloat(Finite(splitVal))];
  }

  /** The next boundary for a splittable column, or none. */
  method NextMax(minE: Key, maxE: Key, numSplits: int, splitNum: int) returns (splittable: bool, nextMax: Key)
    requires minE != [] && |minE| == |maxE| && 1 <= splitNum < numSplits
    ensures splittable == Cuttable(CutOf(minE, maxE))
    ensures splittable ==> nextMax == Boundary(CutOf(minE, maxE), numSplits, splitNum)
  {
    match (minE[0], maxE[0]) {
      case (DInt(minVal), DInt(maxVal)) =>
        var valRange := Wrap(maxVal - minVal, MIN_INT64);
        if valRange <= 0 {
          return false, [];
        }
        var step := if valRange / numSplits > 1 then valRange / numSplits else 1;
        var splitVal := Wrap(minVal + Wrap(step * splitNum, MIN_INT64), MIN_INT64);
        return true, [DInt(splitVal)];
      case (DUuid(minVal, _), DUuid(maxVal, _)) =>
        // Use the high words to divide.
        var valRange := Wrap(maxVal - minVal, 0);
        if valRange <= 0 {
          return false, [];
        }
        var step := if valRange / numSplits > 1 then valRange / numSplits else 1;
        var splitVal := Wrap(minVal + Wrap(step * splitNum, 0), 0);
        return true, [DUuid(splitVal, 0)];
      case (DFloat(Finite(minVal)), DFloat(Finite(maxVal))) =>
        splittable, nextMax := NextFloat(minVal, maxVal, numSplits, splitNum);
      case _ =>
        return false, [];
    }
  }

  /** minE and maxE are the least and the greatest primary key of the source-of-truth table,
      read by two separate queries; empty when the table has no rows. */
  method ShardTable(minE: Key, maxE: Key, numSplits: int) returns (res: ShardResult)
    ensures res == BadSplits <==> numSplits < 1
    ensures numSplits > 1 && Cuttable(CutOf(minE, maxE)) ==>
      res.Shards? && CutInto(res.shards, CutOf(minE, maxE), numSplits)
    ensures numSplits == 1 || (numSplits > 1 && !Cuttable(CutOf(minE, maxE))) ==>
      res == Shards([TableShard([], [], 1, 1)])
  {
    hide Boundary;
    if numSplits < 1 {
      return BadSplits;
    }
    if numSplits > 1 {
      var ret: seq<TableShard> := [];
      var nextMin: Key := [];
      if !(|minE| == 0 || |maxE| == 0 || |minE| != |maxE|) {
        var splittable := true;
        var splitNum := 1;
        OuterBoundaries(CutOf(minE, maxE), numSplits);
        while splitNum <= numSplits && splittable
          invariant 1 <= splitNum <= numSplits + 1
          invariant splittable ==> |ret| == splitNum - 1
          invariant splitNum > 1 ==> splittable && Cuttable(CutOf(minE, maxE))
          invariant splittable || !Cuttable(CutOf(minE, maxE))
          invariant Cuttable(CutOf(minE, maxE)) ==> nextMin == Boundary(CutOf(minE, maxE), numSplits, splitNum - 1)
          invariant Cuttable(CutOf(minE, maxE)) ==>
            forall i :: 0 <= i < |ret| ==> ret[i] == ShardAt(CutOf(minE, maxE), numSplits, i)
          decreases numSplits + 1 - splitNum, splittable
        {
          var nextMax: Key := [];
          if splitNum < numSplits {
            splittable, nextMax := NextMax(minE, maxE, numSplits, splitNum);
          }
          if splittable {
            ret := ret + [TableShard(nextMin, nextMax, splitNum, numSplits)];
            nextMin := nextMax;
            splitNum := splitNum + 1;
          }
        }
        if splittable {
          return Shards(ret);
        }
      } else {
        NoCut(minE, maxE);
      }
    }
    res := Shards([TableShard([], [], 1, 1)]);
  }

  lemma OuterBoundaries(c: Cut, numSplits: int)
    requires numSplits >= 1
    ensures Cuttable(c) ==> Boundary(c, numSplits, 0) == [] && Boundary(c, numSplits, numSplits) == []
  {
  }

  lemma NoCut(minE: Key, maxE: Key)
    requires |minE| == 0 || |maxE| == 0 || |minE| != |maxE|
    ensures !Cuttable(CutOf(minE, maxE))
  {
  }

  ghost predicate CutInto(shards: seq<TableShard>, c: Cut, numSplits: int)
    requires Cuttable(c) && numSplits >= 1
  {
    && |shards| == numSplits
    && forall i :: 0 <= i < numSplits ==> shards[i] == ShardAt(c, numSplits, i)
  }

  // ---- Coverage ----

  /** Shards that follow one another: each starts where the one before ends, and both ends are open. */
  ghost predicate Chain(shards: seq<TableShard>) {
    && shards != []
    && shards[0].startPKVals == [] && shards[|shards| - 1].endPKVals == []
    && (forall i, j :: 0 <= i < j < |shards| && j == i + 1 ==> shards[j].startPKVals == shards[i].endPKVals)
    && (forall i :: 0 < i < |shards| ==> |shards[i].startPKVals| == 1)
    && (forall i :: 0 <= i < |shards| - 1 ==> |shards[i].endPKVals| == 1)
  }

  /** A chain of shards covers every row, even where its boundaries are out of order. */
  lemma {:induction false} ChainCovers(shards: seq<TableShard>, r: Row) returns (i: nat)
    requires Chain(shards) && |r| >= 1
    ensures i < |shards| && InShard(r, shards[i])
  {
    i := 0;
    while i < |shards| - 1 && !InShard(r, shards[i])
      invariant 0 <= i < |shards|
      invariant Holds(Generate([], shards[i].startPKVals, []).left, r)
    {
      i := i + 1;
    }
  }

  /** The rows that two shards of a chain share: none if the boundaries increase. */
  lemma {:induction false} IncreasingDisjoint(shards: seq<TableShard>, r: Row, i: nat, j: nat)
    requires Chain(shards) && |r| >= 1 && i < j < |shards|
    requires forall k :: 0 < k < |shards| - 1 ==> KeyLess(shards[k].startPKVals, shards[k].endPKVals)
    ensures !(InShard(r, shards[i]) && InShard(r, shards[j]))
  {
    if InShard(r, shards[j]) {
      var k := j;
      while k > i + 1
        invariant i < k <= j
        invariant KeyCompare(r, shards[k].startPKVals) >= 0
      {
        var b, e := shards[k - 1].startPKVals, shards[k - 1].endPKVals;
        CompareOne(r, b, e);
        k := k - 1;
      }
    }
  }

  lemma CompareOne(r: Row, b: Key, e: Key)
    requires |r| >= 1 && |b| == |e| == 1 && KeyLess(b, e)
    ensures KeyCompare(r, e) >= 0 ==> KeyCompare(r, b) >= 0
  {
    assert b[1..] == [] && e[1..] == [] && r[1..] == r[1..];
    CompareDatumOrder(r[0], b[0], e[0]);
    CompareDatumOrder(b[0], e[0], r[0]);
    CompareDatumOrder(r[0], e[0], b[0]);
  }

  // ---- Which cuts are disjoint ----

  /** The least and greatest values of a column, as the arithmetic at hand represents them. */
  ghost predicate Genuine(c: Cut) {
    c.Cut? ==> c.base <= c.minVal <= c.maxVal < c.base + TWO_64 && (c.base == 0 || c.base == MIN_INT64)
  }

  /** An overflowing difference is always seen as not positive, so it falls back to one full
      shard; for unsigned high words it cannot overflow at all. */
  lemma OverflowFallsBack(c: Cut)
    requires c.Cut? && Genuine(c)
    ensures Range(c) <= 0 <==> c.minVal == c.maxVal || c.maxVal - c.minVal >= c.base + TWO_64
    ensures Range(c) > 0 ==> Range(c) == c.maxVal - c.minVal
  {
  }

  lemma StepBound(range: int, n: int, i: int)
    requires range >= n >= 1 && 0 <= i <= n
    ensures 0 <= (range / n) * i <= range
  {
    assert (range / n) * n <= range;
    MulOrder(range / n, i, n);
  }

  lemma MulOrder(x: int, i: int, n: int)
    requires x >= 0 && 0 <= i <= n
    ensures 0 <= x * i <= x * n
  {
  }

  /** No boundary wraps: none does in floating point. */
  predicate NoWrap(c: Cut, numSplits: int)
    requires Cuttable(c)
  {
    c.Cut? ==> Range(c) >= numSplits || c.minVal + (numSplits - 1) < c.base + TWO_64
  }

  lemma SplitValExact(c: Cut, numSplits: int, i: int)
    requires c.Cut? && Genuine(c) && Cuttable(c) && 1 < numSplits <= MAX_INT64 && 0 < i < numSplits
    ensures NoWrap(c, numSplits) ==> SplitVal(c, numSplits, i) == c.minVal + Step(c, numSplits) * i
    ensures Range(c) < numSplits ==> SplitVal(c, numSplits, i) == Wrap(c.minVal + i, c.base)
  {
    OverflowFallsBack(c);
    var step, range := Step(c, numSplits), Range(c);
    var p := step * i;
    if range >= numSplits {
      StepBound(range, numSplits, i);
      DivAtLeastOne(range, numSplits);
      assert step == range / numSplits;
      assert 0 <= p <= range;
    } else {
      DivBelowOne(range, numSplits);
      assert step == 1;
      assert p == i;
    }
    assert Wrap(p, c.base) == p;
  }

  lemma DivAtLeastOne(x: int, n: int)
    requires x >= n >= 1
    ensures x / n >= 1
  {
  }

  lemma DivBelowOne(x: int, n: int)
    requires 0 <= x < n
    ensures x / n == 0
  {
  }

  ghost predicate Disjoint(shards: seq<TableShard>) {
    forall r: Row, i, j :: 0 <= i < j < |shards| && |r| >= 1 ==> !(InShard(r, shards[i]) && InShard(r, shards[j]))
  }

  lemma CutIsChain(shards: seq<TableShard>, c: Cut, numSplits: int)
    requires Cuttable(c) && numSplits > 1 && CutInto(shards, c, numSplits)
    ensures Chain(shards)
  {
    hide SplitVal;
    assert shards[0].startPKVals == Boundary(c, numSplits, 0);
    assert shards[numSplits - 1].endPKVals == Boundary(c, numSplits, numSplits);
  }

  lemma OneLess(c: Cut, x: int, y: int)
    requires x < y
    ensures KeyLess([CutDatum(c, x)], [CutDatum(c, y)])
  {
  }

  lemma NextSplitGreater(c: Cut, numSplits: int, i: int)
    requires c.Cut? && Genuine(c) && Cuttable(c) && 1 < numSplits <= MAX_INT64 && NoWrap(c, numSplits)
    requires 0 < i && i + 1 < numSplits
    ensures SplitVal(c, numSplits, i) < SplitVal(c, numSplits, i + 1)
  {
    SplitValExact(c, numSplits, i);
    SplitValExact(c, numSplits, i + 1);
    assert Step(c, numSplits) * (i + 1) == Step(c, numSplits) * i + Step(c, numSplits);
  }

  lemma NextFloatGreater(c: Cut, numSplits: int, i: int)
    requires c.FloatCut? && Cuttable(c) && numSplits >= 1
    ensures FloatSplitVal(c, numSplits, i) < FloatSplitVal(c, numSplits, i + 1)
  {
    var step := FloatStep(c, numSplits);
    assert step * (i + 1) as real == step * i as real + step;
  }

  lemma NextPointGreater(c: Cut, numSplits: int, i: int)
    requires Genuine(c) && Cuttable(c) && 1 < numSplits <= MAX_INT64 && NoWrap(c, numSplits)
    requires 0 < i && i + 1 < numSplits
    ensures KeyLess([CutPoint(c, numSplits, i)], [CutPoint(c, numSplits, i + 1)])
  {
    if c.FloatCut? {
      NextFloatGreater(c, numSplits, i);
    } else {
      NextSplitGreater(c, numSplits, i);
      hide SplitVal;
      OneLess(c, SplitVal(c, numSplits, i), SplitVal(c, numSplits, i + 1));
    }
  }

  /** Once a boundary wraps, the last boundary lies below the first. */
  lemma LastBelowFirst(c: Cut, numSplits: int)
    requires Genuine(c) && Cuttable(c) && 1 < numSplits <= MAX_INT64 && !NoWrap(c, numSplits)
    ensures c.Cut? && SplitVal(c, numSplits, numSplits - 1) < SplitVal(c, numSplits, 1)
  {
    OverflowFallsBack(c);
    SplitValExact(c, numSplits, 1);
    SplitValExact(c, numSplits, numSplits - 1);
    assert Wrap(c.minVal + 1, c.base) == c.minVal + 1;
    assert Wrap(c.minVal + (numSplits - 1), c.base) == c.minVal + (numSplits - 1) - TWO_64;
  }

  /** The key of the last boundary is then in the first and in the last shard. */
  lemma SharedKey(shards: seq<TableShard>, c: Cut, numSplits: int, first: int, last: int)
    requires c.Cut? && Cuttable(c) && 1 < numSplits && CutInto(shards, c, numSplits)
    requires first == SplitVal(c, numSplits, 1) && last == SplitVal(c, numSplits, numSplits - 1) && last < first
    ensures !Disjoint(shards)
  {
    hide SplitVal;
    var r := [CutDatum(c, last)];
    OneLess(c, last, first);
    CompareSigns(r, r);
    assert shards[0].endPKVals == [CutDatum(c, first)] && shards[numSplits - 1].startPKVals == r;
    assert InShard(r, shards[0]) && InShard(r, shards[numSplits - 1]);
  }

  /** The shards are pairwise disjoint exactly if no boundary wraps around: the range is at
      least the number of splits, or counting up from the minimum stays within 64 bits. */
  lemma DisjointExactly(shards: seq<TableShard>, c: Cut, numSplits: int)
    requires Genuine(c) && Cuttable(c) && 1 < numSplits <= MAX_INT64 && CutInto(shards, c, numSplits)
    ensures Disjoint(shards) <==> NoWrap(c, numSplits)
  {
    hide SplitVal, Genuine, InShard, NoWrap;
    CutIsChain(shards, c, numSplits);
    if NoWrap(c, numSplits) {
      forall k | 0 < k < numSplits - 1
        ensures KeyLess(shards[k].startPKVals, shards[k].endPKVals)
      {
        NextPointGreater(c, numSplits, k);
      }
      forall r: Row, i, j | 0 <= i < j < |shards| && |r| >= 1
        ensures !(InShard(r, shards[i]) && InShard(r, shards[j]))
      {
        IncreasingDisjoint(shards, r, i, j);
      }
    } else {
      LastBelowFirst(c, numSplits);
      SharedKey(shards, c, numSplits, SplitVal(c, numSplits, 1), SplitVal(c, numSplits, numSplits - 1));
    }
  }

  // ---- Which keys a wrapped cut doubles ----

  /** The value that the cut is made on. */
  predicate HasCutValue(c: Cut, d: Datum, v: int)
    requires c.Cut?
  {
    if c.base == 0 then d.DUuid? && d.hi == v else d.DInt? && d.n == v
  }

  lemma CompareCutValue(c: Cut, r: Row, v: int, boundary: int)
    requires c.Cut? && |r| >= 1 && HasCutValue(c, r[0], v)
    ensures KeyCompare(r, [CutDatum(c, boundary)]) < 0 <==> v < boundary
  {
    assert [CutDatum(c, boundary)][1..] == [];
  }

  lemma WrappedBoundary(c: Cut, numSplits: int, i: int)
    requires Genuine(c) && Cuttable(c) && 1 < numSplits <= MAX_INT64 && !NoWrap(c, numSplits) && 0 < i < numSplits
    ensures c.minVal + i < c.base + TWO_64 ==> SplitVal(c, numSplits, i) == c.minVal + i
    ensures c.minVal + i >= c.base + TWO_64 ==> SplitVal(c, numSplits, i) == c.minVal + i - TWO_64 < c.minVal
  {
    OverflowFallsBack(c);
    SplitValExact(c, numSplits, i);
  }

  /** Where a boundary wraps, the last shard holds every key from the minimum up; so does, for every value but the
      greatest there is, the one shard for that value. */
  lemma WrappedShard(c: Cut, numSplits: int, r: Row, v: int, i: int)
    requires Genuine(c) && Cuttable(c) && 1 < numSplits <= MAX_INT64 && !NoWrap(c, numSplits)
    requires |r| >= 1 && HasCutValue(c, r[0], v) && c.minVal <= v < c.base + TWO_64 && 0 <= i < numSplits
    ensures InShard(r, ShardAt(c, numSplits, i)) <==>
      i == numSplits - 1 || (i == v - c.minVal && v + 1 < c.base + TWO_64)
  {
    var top := c.base + TWO_64;
    OverflowFallsBack(c);
    if i > 0 {
      WrappedBoundary(c, numSplits, i);
      CompareCutValue(c, r, v, SplitVal(c, numSplits, i));
    }
    if i < numSplits - 1 {
      WrappedBoundary(c, numSplits, i + 1);
      CompareCutValue(c, r, v, SplitVal(c, numSplits, i + 1));
    }
    hide SplitVal, Genuine, NoWrap;
  }
}

/** A whole table: shards, each verified page by page, by a pool of workers. */
module VerifyTables {
  import opened Keys
  import opened ScanQuery
  import opened ScanIterators
  import opened RowEvents
  import opened RowVerify
  import opened Diff
  import opened ShardTables

  // ---- One shard ----

  /** The rows of a table that belong to a shard. */
  function RangeRows(rows: seq<Row>, s: TableShard): seq<Row> {
    Select(rows, Generate([], s.startPKVals, s.endPKVals))
  }

  predicate ShardFits(s: TableShard, shape: TableShape) {
    1 <= shape.nPk && |s.startPKVals| <= shape.nPk && |s.endPKVals| <= shape.nPk
  }

  lemma {:induction false} RangeOrdered(rows: seq<Row>, s: TableShard, shape: TableShape)
    requires Ordered(rows, shape)
    ensures Ordered(RangeRows(rows, s), shape)
  {
    var w := Generate([], s.startPKVals, s.endPKVals);
    SelectSorted(rows, w, shape.nPk);
    forall i | 0 <= i < |Select(rows, w)|
      ensures |Select(rows, w)[i]| == shape.width
    {
      SelectMember(rows, w, Select(rows, w)[i]);
    }
  }

  lemma SupplyFits(rows: seq<Row>, s: TableShard, shape: TableShape, rowBatchSize: nat, faults: nat -> Fetch)
    requires Ordered(rows, shape) && rowBatchSize >= 1
    ensures Fits(ScanIterator.ScanSupply(rows, s.startPKVals, s.endPKVals, rowBatchSize, faults).rows, shape)
  {
    RangeOrdered(rows, s, shape);
    DeliverIsRange(RangeRows(rows, s), rowBatchSize, faults, 0);
  }

  /** The outcome of one shard: the merge of its two paged scans, whatever their fetches meet. */
  ghost function ShardOutcome(
    truth: seq<Row>, target: seq<Row>, shape: TableShape, s: TableShard, rowBatchSize: nat,
    truthFaults: nat -> Fetch, targetFaults: nat -> Fetch): Merged
    requires Ordered(truth, shape) && Ordered(target, shape) && rowBatchSize >= 1
  {
    SupplyFits(truth, s, shape, rowBatchSize, truthFaults);
    SupplyFits(target, s, shape, rowBatchSize, targetFaults);
    Merge(
      ScanIterator.ScanSupply(truth, s.startPKVals, s.endPKVals, rowBatchSize, truthFaults),
      ScanIterator.ScanSupply(target, s.startPKVals, s.endPKVals, rowBatchSize, targetFaults), shape, {}, false)
  }

  /** What the reporter gets of one shard: a summary at the end, unless the scan fails. */
  function ShardReports(m: Merged): seq<Report> {
    Reports(m.events) + if m.result.NoError? then [Finished(Tally(m.events))] else []
  }

  /** Verifies one shard without live mode. */
  method VerifyRowsOnShard(
    truth: seq<Row>, target: seq<Row>, shape: TableShape, s: TableShard, rowBatchSize: nat,
    truthFaults: nat -> Fetch, targetFaults: nat -> Fetch)
    returns (reports: seq<Report>, stats: RowStats, result: VerifyResult)
    requires Ordered(truth, shape) && Ordered(target, shape) && ShardFits(s, shape) && rowBatchSize >= 1
    ensures var m := ShardOutcome(truth, target, shape, s, rowBatchSize, truthFaults, targetFaults);
      reports == ShardReports(m) && stats == Tally(m.events) && result == m.result
  {
    SupplyFits(truth, s, shape, rowBatchSize, truthFaults);
    SupplyFits(target, s, shape, rowBatchSize, targetFaults);
    var truthIt := new ScanIterator(truth, shape.nPk, s.startPKVals, s.endPKVals, rowBatchSize, truthFaults);
    var targetIt := new ScanIterator(target, shape.nPk, s.startPKVals, s.endPKVals, rowBatchSize, targetFaults);
    hide Tally, Reports, Merge, ScanIterator.ScanSupply, RangeRows, Ordered;
    var evl := new DefaultListener();
    result := VerifyRows(Scan(truthIt), Scan(targetIt), shape, Default(evl));
    ghost var m := ShardOutcome(truth, target, shape, s, rowBatchSize, truthFaults, targetFaults);
    assert [] + m.events == m.events;
    stats := evl.stats;
    reports := evl.reports + if result.NoError? then [Finished(stats)] else [];
  }

  ghost predicate NoFaults(faults: nat -> Fetch) {
    forall k :: faults(k) == Completes
  }

  /** What a shard's log says when nothing fails: the difference of the rows in the shard,
      whatever the page size. */
  lemma ShardFindings(
    truth: seq<Row>, target: seq<Row>, shape: TableShape, s: TableShard, rowBatchSize: nat,
    truthFaults: nat -> Fetch, targetFaults: nat -> Fetch)
    requires Ordered(truth, shape) && Ordered(target, shape) && rowBatchSize >= 1
    requires NoFaults(truthFaults) && NoFaults(targetFaults)
    ensures Ordered(RangeRows(truth, s), shape) && Ordered(RangeRows(target, s), shape)
    ensures var m := ShardOutcome(truth, target, shape, s, rowBatchSize, truthFaults, targetFaults);
      m.result == NoError && Findings(m.events) == DiffRows(RangeRows(truth, s), RangeRows(target, s), shape)
  {
    RangeOrdered(truth, s, shape);
    RangeOrdered(target, s, shape);
    DeliverIsRange(RangeRows(truth, s), rowBatchSize, truthFaults, 0);
    DeliverIsRange(RangeRows(target, s), rowBatchSize, targetFaults, 0);
    MergeIsDiff(RangeRows(truth, s), RangeRows(target, s), shape, {}, false);
  }

  // ---- All shards ----

  /** Whether a row is in a shard shows in its key. */
  lemma AdmitsKey(r: Row, s: TableShard, shape: TableShape)
    requires ShardFits(s, shape) && shape.nPk <= |r|
    ensures InShard(r, s) == InShard(r[..shape.nPk], s)
  {
    if s.startPKVals != [] { ComparePrefix(r, s.startPKVals, shape.nPk); }
    if s.endPKVals != [] { ComparePrefix(r, s.endPKVals, shape.nPk); }
  }

  function Within(t: Table, s: TableShard): Table {
    map k | k in t && InShard(k, s) :: t[k]
  }

  lemma WithinUpdate(t: Table, k: Key, r: Row, s: TableShard)
    requires k !in t
    ensures Within(t[k := r], s) == if InShard(k, s) then Within(t, s)[k := r] else Within(t, s)
  {
  }

  lemma RangeRowsFirst(rows: seq<Row>, s: TableShard, n: nat)
    requires rows != [] && n <= |rows[0]| && forall i :: 0 <= i < |RangeRows(rows[1..], s)| ==> n <= |RangeRows(rows[1..], s)[i]|
    ensures forall i :: 0 <= i < |RangeRows(rows, s)| ==> n <= |RangeRows(rows, s)[i]|
    ensures TableOf(RangeRows(rows, s), n)
         == if InShard(rows[0], s) then TableOf(RangeRows(rows[1..], s), n)[rows[0][..n] := rows[0]]
            else TableOf(RangeRows(rows[1..], s), n)
  {
    var rest := RangeRows(rows[1..], s);
    if InShard(rows[0], s) {
      assert RangeRows(rows, s) == [rows[0]] + rest && ([rows[0]] + rest)[1..] == rest;
    } else {
      assert RangeRows(rows, s) == rest;
    }
  }

  lemma {:induction false} RangeTable(rows: seq<Row>, s: TableShard, shape: TableShape)
    requires Ordered(rows, shape) && ShardFits(s, shape)
    ensures Ordered(RangeRows(rows, s), shape)
    ensures TableOf(RangeRows(rows, s), shape.nPk) == Within(TableOf(rows, shape.nPk), s)
  {
    RangeOrdered(rows, s, shape);
    if rows != [] {
      hide InShard, RangeRows, Within;
      RangeTable(rows[1..], s, shape);
      AdmitsKey(rows[0], s, shape);
      TableWithoutFirst(rows, shape.nPk);
      RangeRowsFirst(rows, s, shape.nPk);
      WithinUpdate(TableOf(rows[1..], shape.nPk), rows[0][..shape.nPk], rows[0], s);
    }
  }

  /** A shard's findings are those of the whole difference whose key lies in it. */
  lemma RangeDiff(truth: seq<Row>, target: seq<Row>, shape: TableShape, s: TableShard, x: (Key, Finding))
    requires Ordered(truth, shape) && Ordered(target, shape) && ShardFits(s, shape)
    ensures Ordered(RangeRows(truth, s), shape) && Ordered(RangeRows(target, s), shape)
    ensures DiffRows(RangeRows(truth, s), RangeRows(target, s), shape)[x]
         == if x in DiffRows(truth, target, shape) && InShard(x.0, s) then 1 else 0
  {
    RangeTable(truth, s, shape);
    RangeTable(target, s, shape);
    var t, g := TableOf(truth, shape.nPk), TableOf(target, shape.nPk);
    var d, d' := DiffTables(t, g, shape), DiffTables(Within(t, s), Within(g, s), shape);
    assert x in d.Items <==> x.0 in d && d[x.0] == x.1;
    assert x in d'.Items <==> x.0 in d' && d'[x.0] == x.1;
    assert x.0 in d' <==> x.0 in d && InShard(x.0, s);
  }

  /** The findings of a list of shards together. */
  function Total(truth: seq<Row>, target: seq<Row>, shape: TableShape, shards: seq<TableShard>): multiset<(Key, Finding)>
    requires forall s :: s in shards ==> Fits(RangeRows(truth, s), shape) && Fits(RangeRows(target, s), shape)
  {
    if shards == [] then multiset{}
    else DiffRows(RangeRows(truth, shards[0]), RangeRows(target, shards[0]), shape) + Total(truth, target, shape, shards[1..])
  }

  function CountShards(shards: seq<TableShard>, k: Key): nat {
    if shards == [] then 0 else (if InShard(k, shards[0]) then 1 else 0) + CountShards(shards[1..], k)
  }

  /** Each finding of the difference is made once for every shard that holds its key, and nothing else is found. */
  lemma {:induction false} TotalCounts(truth: seq<Row>, target: seq<Row>, shape: TableShape, shards: seq<TableShard>, x: (Key, Finding))
    requires Ordered(truth, shape) && Ordered(target, shape)
    requires forall s :: s in shards ==> ShardFits(s, shape)
    ensures forall s :: s in shards ==> Fits(RangeRows(truth, s), shape) && Fits(RangeRows(target, s), shape)
    ensures Total(truth, target, shape, shards)[x]
         == if x in DiffRows(truth, target, shape) then CountShards(shards, x.0) else 0
  {
    forall s | s in shards
      ensures Fits(RangeRows(truth, s), shape) && Fits(RangeRows(target, s), shape)
    {
      RangeOrdered(truth, s, shape);
      RangeOrdered(target, s, shape);
    }
    if shards != [] {
      RangeDiff(truth, target, shape, shards[0], x);
      TotalCounts(truth, target, shape, shards[1..], x);
    }
  }

  lemma {:induction false} CountIsOne(shards: seq<TableShard>, k: Key, i: nat)
    requires i < |shards| && InShard(k, shards[i]) && |k| >= 1
    requires forall a, b :: 0 <= a < b < |shards| ==> !(InShard(k, shards[a]) && InShard(k, shards[b]))
    ensures CountShards(shards, k) == 1
  {
    if i > 0 {
      CountIsOne(shards[1..], k, i - 1);
    } else {
      CountIsZero(shards[1..], k);
    }
  }

  lemma {:induction false} CountIsZero(shards: seq<TableShard>, k: Key)
    requires forall a :: 0 <= a < |shards| ==> !InShard(k, shards[a])
    ensures CountShards(shards, k) == 0
  {
    if shards != [] {
      CountIsZero(shards[1..], k);
    }
  }

  lemma {:induction false} DiffKeyWidth(truth: seq<Row>, target: seq<Row>, shape: TableShape, x: (Key, Finding))
    requires Ordered(truth, shape) && Ordered(target, shape) && x in DiffRows(truth, target, shape)
    ensures |x.0| == shape.nPk
  {
    TableKeys(truth, shape.nPk, x.0);
    TableKeys(target, shape.nPk, x.0);
  }

  /** End to end: verifying the disjoint shards of a chain, in pages of any size, finds exactly the
      difference of the two tables, every key of either table once. */
  lemma ShardsFindDiff(truth: seq<Row>, target: seq<Row>, shape: TableShape, shards: seq<TableShard>)
    requires Ordered(truth, shape) && Ordered(target, shape)
    requires Chain(shards) && Disjoint(shards) && forall s :: s in shards ==> ShardFits(s, shape)
    ensures forall s :: s in shards ==> Fits(RangeRows(truth, s), shape) && Fits(RangeRows(target, s), shape)
    ensures Total(truth, target, shape, shards) == DiffRows(truth, target, shape)
  {
    TotalCounts(truth, target, shape, shards, ([], Matched));
    forall x: (Key, Finding)
      ensures Total(truth, target, shape, shards)[x] == DiffRows(truth, target, shape)[x]
    {
      TotalCounts(truth, target, shape, shards, x);
      if x in DiffRows(truth, target, shape) {
        DiffKeyWidth(truth, target, shape, x);
        assert shards[0] in shards;
        var i := ChainCovers(shards, x.0);
        CountIsOne(shards, x.0, i);
      }
    }
  }

  /** The findings of several logs together. */
  function LogFindings(logs: seq<seq<Event>>): multiset<(Key, Finding)> {
    if logs == [] then multiset{} else Findings(logs[0]) + LogFindings(logs[1..])
  }

  /** How many of the first n shards end with an error. */
  ghost function FailedShards(
    truth: seq<Row>, target: seq<Row>, shape: TableShape, shards: seq<TableShard>, rowBatchSize: nat,
    truthFaults: nat -> nat -> Fetch, targetFaults: nat -> nat -> Fetch, n: nat): nat
    requires Ordered(truth, shape) && Ordered(target, shape) && rowBatchSize >= 1 && n <= |shards|
  {
    if n == 0 then 0
    else
      FailedShards(truth, target, shape, shards, rowBatchSize, truthFaults, targetFaults, n - 1)
      + if ShardOutcome(truth, target, shape, shards[n - 1], rowBatchSize, truthFaults(n - 1), targetFaults(n - 1)).result.NoError? then 0 else 1
  }

  ghost predicate NoFaultsAnywhere(faults: nat -> nat -> Fetch) {
    forall i :: NoFaults(faults(i))
  }

  /** The first shards are verified: their events and reports are those of their own scans. */
  ghost predicate VerifiedSoFar(
    reports: seq<seq<Report>>, logs: seq<seq<Event>>, failed: nat, truth: seq<Row>, target: seq<Row>, shape: TableShape,
    shards: seq<TableShard>, rowBatchSize: nat, truthFaults: nat -> nat -> Fetch, targetFaults: nat -> nat -> Fetch)
    requires Ordered(truth, shape) && Ordered(target, shape) && rowBatchSize >= 1
    requires forall s :: s in shards ==> ShardFits(s, shape)
  {
    && |reports| == |logs| <= |shards|
    && (forall i :: 0 <= i < |logs| ==>
          var m := ShardOutcome(truth, target, shape, shards[i], rowBatchSize, truthFaults(i), targetFaults(i));
          logs[i] == m.events && reports[i] == ShardReports(m))
    && failed == FailedShards(truth, target, shape, shards, rowBatchSize, truthFaults, targetFaults, |logs|)
  }

  lemma VerifiedNext(
    reports: seq<seq<Report>>, logs: seq<seq<Event>>, failed: nat, truth: seq<Row>, target: seq<Row>, shape: TableShape,
    shards: seq<TableShard>, rowBatchSize: nat, truthFaults: nat -> nat -> Fetch, targetFaults: nat -> nat -> Fetch)
    requires Ordered(truth, shape) && Ordered(target, shape) && rowBatchSize >= 1
    requires forall s :: s in shards ==> ShardFits(s, shape)
    requires VerifiedSoFar(reports, logs, failed, truth, target, shape, shards, rowBatchSize, truthFaults, targetFaults)
    requires |logs| < |shards|
    ensures var i := |logs|;
      var m := ShardOutcome(truth, target, shape, shards[i], rowBatchSize, truthFaults(i), targetFaults(i));
      VerifiedSoFar(reports + [ShardReports(m)], logs + [m.events], failed + (if m.result.NoError? then 0 else 1),
        truth, target, shape, shards, rowBatchSize, truthFaults, targetFaults)
  {
    hide ShardOutcome, ShardReports, Ordered;
  }

  /** The shards of one table, one after the other, each with fetches of its own.  A failing shard is reported and
      the others go on. */
  method VerifyShards(
    truth: seq<Row>, target: seq<Row>, shape: TableShape, shards: seq<TableShard>, rowBatchSize: nat,
    truthFaults: nat -> nat -> Fetch, targetFaults: nat -> nat -> Fetch)
    returns (reports: seq<seq<Report>>, failed: nat, ghost logs: seq<seq<Event>>)
    requires Ordered(truth, shape) && Ordered(target, shape) && rowBatchSize >= 1
    requires forall s :: s in shards ==> ShardFits(s, shape)
    ensures |logs| == |reports| == |shards| && forall i :: 0 <= i < |shards| ==>
      var m := ShardOutcome(truth, target, shape, shards[i], rowBatchSize, truthFaults(i), targetFaults(i));
      logs[i] == m.events && reports[i] == ShardReports(m)
    ensures failed == FailedShards(truth, target, shape, shards, rowBatchSize, truthFaults, targetFaults, |shards|)
    ensures forall s :: s in shards ==> Fits(RangeRows(truth, s), shape) && Fits(RangeRows(target, s), shape)
    ensures NoFaultsAnywhere(truthFaults) && NoFaultsAnywhere(targetFaults) ==>
      failed == 0 && LogFindings(logs) == Total(truth, target, shape, shards)
  {
    reports, failed, logs := [], 0, [];
    assert VerifiedSoFar(reports, logs, failed, truth, target, shape, shards, rowBatchSize, truthFaults, targetFaults);
    hide DiffRows, Findings, ShardOutcome, ShardReports, NoFaultsAnywhere, VerifiedSoFar, Ordered, Total;
    while |reports| < |shards|
      invariant |reports| == |logs| <= |shards|
      invariant VerifiedSoFar(reports, logs, failed, truth, target, shape, shards, rowBatchSize, truthFaults, targetFaults)
    {
      var i := |reports|;
      VerifiedNext(reports, logs, failed, truth, target, shape, shards, rowBatchSize, truthFaults, targetFaults);
      assert shards[i] in shards;
      ghost var m := ShardOutcome(truth, target, shape, shards[i], rowBatchSize, truthFaults(i), targetFaults(i));
      var shardReports, _, result := VerifyRowsOnShard(truth, target, shape, shards[i], rowBatchSize, truthFaults(i), targetFaults(i));
      if result != NoError {
        failed := failed + 1;
      }
      logs := logs + [m.events];
      reports := reports + [shardReports];
    }
    TotalCounts(truth, target, shape, shards, ([], Matched));
    if NoFaultsAnywhere(truthFaults) && NoFaultsAnywhere(targetFaults) {
      CleanShards(reports, logs, failed, truth, target, shape, shards, rowBatchSize, truthFaults, targetFaults);
      FindTotal(logs, truth, target, shape, shards);
    }
    SoFarIsAll(reports, logs, failed, truth, target, shape, shards, rowBatchSize, truthFaults, targetFaults);
  }

  lemma SoFarIsAll(
    reports: seq<seq<Report>>, logs: seq<seq<Event>>, failed: nat, truth: seq<Row>, target: seq<Row>, shape: TableShape,
    shards: seq<TableShard>, rowBatchSize: nat, truthFaults: nat -> nat -> Fetch, targetFaults: nat -> nat -> Fetch)
    requires Ordered(truth, shape) && Ordered(target, shape) && rowBatchSize >= 1
    requires forall s :: s in shards ==> ShardFits(s, shape)
    requires VerifiedSoFar(reports, logs, failed, truth, target, shape, shards, rowBatchSize, truthFaults, targetFaults)
    requires |logs| == |shards|
    ensures |reports| == |shards| && forall i :: 0 <= i < |shards| ==>
      var m := ShardOutcome(truth, target, shape, shards[i], rowBatchSize, truthFaults(i), targetFaults(i));
      logs[i] == m.events && reports[i] == ShardReports(m)
    ensures failed == FailedShards(truth, target, shape, shards, rowBatchSize, truthFaults, targetFaults, |shards|)
  {
  }

  /** A shard without faults does not fail and finds the difference of its rows. */
  lemma CleanShard(
    truth: seq<Row>, target: seq<Row>, shape: TableShape, s: TableShard, rowBatchSize: nat,
    truthFaults: nat -> Fetch, targetFaults: nat -> Fetch)
    requires Ordered(truth, shape) && Ordered(target, shape) && rowBatchSize >= 1 && ShardFits(s, shape)
    requires NoFaults(truthFaults) && NoFaults(targetFaults)
    ensures Fits(RangeRows(truth, s), shape) && Fits(RangeRows(target, s), shape)
    ensures var m := ShardOutcome(truth, target, shape, s, rowBatchSize, truthFaults, targetFaults);
      m.result == NoError && Findings(m.events) == DiffRows(RangeRows(truth, s), RangeRows(target, s), shape)
  {
    hide DiffRows, Findings, ShardOutcome;
    ShardFindings(truth, target, shape, s, rowBatchSize, truthFaults, targetFaults);
  }

  lemma {:induction false} NoneFailed(
    truth: seq<Row>, target: seq<Row>, shape: TableShape,
    shards: seq<TableShard>, rowBatchSize: nat, truthFaults: nat -> nat -> Fetch, targetFaults: nat -> nat -> Fetch, n: nat)
    requires Ordered(truth, shape) && Ordered(target, shape) && rowBatchSize >= 1 && n <= |shards|
    requires forall s :: s in shards ==> ShardFits(s, shape)
    requires NoFaultsAnywhere(truthFaults) && NoFaultsAnywhere(targetFaults)
    ensures FailedShards(truth, target, shape, shards, rowBatchSize, truthFaults, targetFaults, n) == 0
  {
    if n > 0 {
      NoneFailed(truth, target, shape, shards, rowBatchSize, truthFaults, targetFaults, n - 1);
      assert NoFaults(truthFaults(n - 1)) && NoFaults(targetFaults(n - 1));
      hide DiffRows, Findings, ShardOutcome, NoFaults, Ordered;
      CleanShard(truth, target, shape, shards[n - 1], rowBatchSize, truthFaults(n - 1), targetFaults(n - 1));
    }
  }

  /** Logs that each find the difference in their shard. */
  ghost predicate FindAll(logs: seq<seq<Event>>, truth: seq<Row>, target: seq<Row>, shape: TableShape, shards: seq<TableShard>) {
    |logs| == |shards| && forall i :: 0 <= i < |shards| ==>
      && Fits(RangeRows(truth, shards[i]), shape) && Fits(RangeRows(target, shards[i]), shape)
      && Findings(logs[i]) == DiffRows(RangeRows(truth, shards[i]), RangeRows(target, shards[i]), shape)
  }

  lemma {:induction false} FindTotal(
    logs: seq<seq<Event>>, truth: seq<Row>, target: seq<Row>, shape: TableShape, shards: seq<TableShard>)
    requires FindAll(logs, truth, target, shape, shards)
    ensures forall s :: s in shards ==> Fits(RangeRows(truth, s), shape) && Fits(RangeRows(target, s), shape)
    ensures LogFindings(logs) == Total(truth, target, shape, shards)
  {
    if shards != [] {
      hide DiffRows, Findings, Fits;
      FindTotal(logs[1..], truth, target, shape, shards[1..]);
    }
  }

  /** Without faults no shard fails, and the findings are those of all shards. */
  lemma CleanShards(
    reports: seq<seq<Report>>, logs: seq<seq<Event>>, failed: nat, truth: seq<Row>, target: seq<Row>, shape: TableShape,
    shards: seq<TableShard>, rowBatchSize: nat, truthFaults: nat -> nat -> Fetch, targetFaults: nat -> nat -> Fetch)
    requires Ordered(truth, shape) && Ordered(target, shape) && rowBatchSize >= 1
    requires forall s :: s in shards ==> ShardFits(s, shape)
    requires VerifiedSoFar(reports, logs, failed, truth, target, shape, shards, rowBatchSize, truthFaults, targetFaults)
    requires NoFaultsAnywhere(truthFaults) && NoFaultsAnywhere(targetFaults) && |logs| == |shards|
    ensures failed == 0 && FindAll(logs, truth, target, shape, shards)
  {
    NoneFailed(truth, target, shape, shards, rowBatchSize, truthFaults, targetFaults, |shards|);
    hide DiffRows, Findings, ShardOutcome, ShardReports, Ordered;
    forall i | 0 <= i < |shards|
      ensures Fits(RangeRows(truth, shards[i]), shape) && Fits(RangeRows(target, shards[i]), shape)
      ensures Findings(logs[i]) == DiffRows(RangeRows(truth, shards[i]), RangeRows(target, shards[i]), shape)
    {
      assert NoFaults(truthFaults(i)) && NoFaults(targetFaults(i));
      CleanShard(truth, target, shape, shards[i], rowBatchSize, truthFaults(i), targetFaults(i));
    }
  }

  /** The first column of every key is a 64-bit integer, a UUID with 64-bit words, or neither. */
  ghost predicate MachineKeys(rows: seq<Row>) {
    forall r: Row :: r in rows && r != [] ==>
      && (r[0].DInt? ==> MIN_INT64 <= r[0].n <= MAX_INT64)
      && (r[0].DUuid? ==> 0 <= r[0].hi < TWO_64)
  }

  function Extreme(rows: seq<Row>, nPk: nat, isMin: bool): Key
    requires forall i :: 0 <= i < |rows| ==> nPk <= |rows[i]|
  {
    if rows == [] then [] else if isMin then rows[0][..nPk] else rows[|rows| - 1][..nPk]
  }

  lemma ExtremesGenuine(rows: seq<Row>, shape: TableShape)
    requires Ordered(rows, shape) && MachineKeys(rows) && shape.nPk >= 1
    requires Cuttable(CutOf(Extreme(rows, shape.nPk, true), Extreme(rows, shape.nPk, false)))
    ensures Genuine(CutOf(Extreme(rows, shape.nPk, true), Extreme(rows, shape.nPk, false)))
  {
    var n := shape.nPk;
    var first, last := rows[0][..n], rows[|rows| - 1][..n];
    assert rows[0] in rows && rows[|rows| - 1] in rows;
    CompareSigns(first, first);
    assert KeyCompare(first, last) <= 0;
    assert CompareDatum(first[0], last[0]) <= 0;
  }

  lemma CutFits(shards: seq<TableShard>, c: Cut, numSplits: int, shape: TableShape)
    requires Cuttable(c) && numSplits >= 1 && CutInto(shards, c, numSplits) && shape.nPk >= 1
    ensures forall s :: s in shards ==> ShardFits(s, shape)
  {
    forall i | 0 <= i < |shards|
      ensures ShardFits(shards[i], shape)
    {
      assert shards[i] == ShardAt(c, numSplits, i);
    }
  }

  // ---- Where a boundary wraps ----

  lemma {:induction false} WrappedCount(shards: seq<TableShard>, c: Cut, numSplits: int, k: Key, v: int, i: nat)
    requires Genuine(c) && Cuttable(c) && 1 < numSplits <= MAX_INT64 && !NoWrap(c, numSplits) && CutInto(shards, c, numSplits)
    requires |k| >= 1 && HasCutValue(c, k[0], v) && c.minVal <= v < c.base + TWO_64 && i < numSplits
    ensures CountShards(shards[i..], k) == if i <= v - c.minVal < numSplits - 1 && v + 1 < c.base + TWO_64 then 2 else 1
    decreases numSplits - i
  {
    assert shards[i..][0] == shards[i] == ShardAt(c, numSplits, i) && shards[i..][1..] == shards[i + 1..];
    WrappedShard(c, numSplits, k, v, i);
    hide InShard, ShardAt, Genuine, NoWrap, Cuttable;
    if i < numSplits - 1 {
      WrappedCount(shards, c, numSplits, k, v, i + 1);
    }
  }

  /** Where a boundary wraps, every finding at a key from the minimum up is made twice, unless its first column is
      the greatest value there is. */
  lemma WrappedShardsRepeat(
    truth: seq<Row>, target: seq<Row>, shape: TableShape, shards: seq<TableShard>, c: Cut, numSplits: int, x: (Key, Finding), v: int)
    requires Ordered(truth, shape) && Ordered(target, shape) && shape.nPk >= 1
    requires Genuine(c) && Cuttable(c) && 1 < numSplits <= MAX_INT64 && CutInto(shards, c, numSplits) && !NoWrap(c, numSplits)
    requires x in DiffRows(truth, target, shape)
    requires x.0 != [] && HasCutValue(c, x.0[0], v) && c.minVal <= v < c.base + TWO_64
    ensures forall s :: s in shards ==> Fits(RangeRows(truth, s), shape) && Fits(RangeRows(target, s), shape)
    ensures Total(truth, target, shape, shards)[x] == if v + 1 < c.base + TWO_64 then 2 else 1
  {
    CutFits(shards, c, numSplits, shape);
    WrapIsShort(c, numSplits, v);
    hide Total, DiffRows, NoWrap, Genuine, SplitVal;
    TotalCounts(truth, target, shape, shards, x);
    WrappedCount(shards, c, numSplits, x.0, v, 0);
    assert shards[0..] == shards;
  }

  /** So few values are left above the minimum that each has a shard of its own. */
  lemma WrapIsShort(c: Cut, numSplits: int, v: int)
    requires Genuine(c) && Cuttable(c) && !NoWrap(c, numSplits)
    ensures v + 1 < c.base + TWO_64 ==> v - c.minVal < numSplits - 1
  {
  }

  /** The first row of a table has a finding. */
  lemma FirstIsFound(truth: seq<Row>, target: seq<Row>, shape: TableShape) returns (x: (Key, Finding))
    requires Ordered(truth, shape) && Ordered(target, shape) && truth != []
    ensures x.0 == truth[0][..shape.nPk] && DiffRows(truth, target, shape)[x] == 1
  {
    var t, g := TableOf(truth, shape.nPk), TableOf(target, shape.nPk);
    var k := truth[0][..shape.nPk];
    TableKeys(truth, shape.nPk, k);
    x := (k, Judge(t, g, shape, k));
    assert x in DiffTables(t, g, shape).Items;
  }

  /** The shards cut between the least and the greatest key of the source of truth find the difference, every key
      once, exactly if no boundary wraps around. */
  lemma CutFindsDiff(truth: seq<Row>, target: seq<Row>, shape: TableShape, shards: seq<TableShard>, numSplits: int)
    requires Ordered(truth, shape) && Ordered(target, shape) && MachineKeys(truth) && shape.nPk >= 1
    requires 1 < numSplits <= MAX_INT64
    requires var c := CutOf(Extreme(truth, shape.nPk, true), Extreme(truth, shape.nPk, false));
      Cuttable(c) && CutInto(shards, c, numSplits)
    ensures forall s :: s in shards ==> Fits(RangeRows(truth, s), shape) && Fits(RangeRows(target, s), shape)
    ensures var c := CutOf(Extreme(truth, shape.nPk, true), Extreme(truth, shape.nPk, false));
      Total(truth, target, shape, shards) == DiffRows(truth, target, shape) <==> NoWrap(c, numSplits)
  {
    var c := CutOf(Extreme(truth, shape.nPk, true), Extreme(truth, shape.nPk, false));
    ExtremesGenuine(truth, shape);
    CutFits(shards, c, numSplits, shape);
    if NoWrap(c, numSplits) {
      CutIsChain(shards, c, numSplits);
      DisjointExactly(shards, c, numSplits);
      ShardsFindDiff(truth, target, shape, shards);
    } else {
      var x := FirstIsFound(truth, target, shape);
      OverflowFallsBack(c);
      hide DiffRows, Total, NoWrap, CutInto;
      WrappedShardsRepeat(truth, target, shape, shards, c, numSplits, x, c.minVal);
    }
  }

  /** One table of the non-continuous run.  If no fetch fails its findings are the difference of the two tables,
      every key once, exactly when the shard boundaries do not wrap around. */
  method VerifyTable(
    truth: seq<Row>, target: seq<Row>, shape: TableShape, numSplits: int, rowBatchSize: nat,
    truthFaults: nat -> nat -> Fetch, targetFaults: nat -> nat -> Fetch)
    returns (res: ShardResult, reports: seq<seq<Report>>, failed: nat, ghost logs: seq<seq<Event>>)
    requires Ordered(truth, shape) && Ordered(target, shape) && rowBatchSize >= 1 && shape.nPk >= 1
    requires MachineKeys(truth) && numSplits <= MAX_INT64
    ensures res == BadSplits <==> numSplits < 1
    ensures res.Shards? ==>
      && |logs| == |reports| == |res.shards|
      && (forall i :: 0 <= i < |res.shards| ==>
            var m := ShardOutcome(truth, target, shape, res.shards[i], rowBatchSize, truthFaults(i), targetFaults(i));
            logs[i] == m.events && reports[i] == ShardReports(m))
      && (forall s :: s in res.shards ==> ShardFits(s, shape))
      && failed == FailedShards(truth, target, shape, res.shards, rowBatchSize, truthFaults, targetFaults, |res.shards|)
    ensures numSplits >= 1 && NoFaultsAnywhere(truthFaults) && NoFaultsAnywhere(targetFaults) ==>
      var c := CutOf(Extreme(truth, shape.nPk, true), Extreme(truth, shape.nPk, false));
      && failed == 0
      && (LogFindings(logs) == DiffRows(truth, target, shape) <==> numSplits == 1 || !Cuttable(c) || NoWrap(c, numSplits))
  {
    hide DiffRows, Findings, Cuttable, NoFaultsAnywhere, Total, NoWrap, ShardOutcome, FailedShards, ShardReports, CutInto, VerifiedSoFar;
    var minE, maxE := Extreme(truth, shape.nPk, true), Extreme(truth, shape.nPk, false);
    res := ShardTable(minE, maxE, numSplits);
    if res.BadSplits? {
      return res, [], 0, [];
    }
    assert forall s :: s in res.shards ==> ShardFits(s, shape) by {
      if numSplits > 1 && Cuttable(CutOf(minE, maxE)) {
        CutFits(res.shards, CutOf(minE, maxE), numSplits, shape);
      }
    }
    if numSplits > 1 && Cuttable(CutOf(minE, maxE)) {
      CutFindsDiff(truth, target, shape, res.shards, numSplits);
    } else {
      ShardsFindDiff(truth, target, shape, res.shards);
    }
    reports, failed, logs := VerifyShards(truth, target, shape, res.shards, rowBatchSize, truthFaults, targetFaults);
  }
}

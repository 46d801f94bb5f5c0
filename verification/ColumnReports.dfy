/** When a comparison reports that a column cannot be compared. */
module ColumnReports {
  import opened Keys
  import opened ScanIterators
  import opened RowEvents
  import opened RowVerify
  import opened Seqs

  /** The columns that an event reports as incomparable. */
  function ReportedColumns(e: Event): set<nat> {
    if e.ColumnMismatch? && e.reportLog then ToSet(e.columns) else {}
  }

  /** No column is reported that was seen before, and none is reported twice. */
  ghost predicate FreshReports(events: seq<Event>, seen: set<nat>) {
    && (forall i :: 0 <= i < |events| ==> ReportedColumns(events[i]) !! seen)
    && (forall i, j :: 0 <= i < j < |events| ==> ReportedColumns(events[i]) !! ReportedColumns(events[j]))
  }

  ghost predicate ReportsWithin(events: seq<Event>, seen: set<nat>) {
    forall i :: 0 <= i < |events| ==> ReportedColumns(events[i]) <= seen
  }

  lemma FreshAppend(a: seq<Event>, b: seq<Event>, before: set<nat>, after: set<nat>)
    requires FreshReports(a, before) && ReportsWithin(a, after) && FreshReports(b, after) && before <= after
    ensures FreshReports(a + b, before)
  {
    hide ReportedColumns;
    var all := a + b;
    forall i, j | 0 <= i < j < |all|
      ensures ReportedColumns(all[i]) !! ReportedColumns(all[j])
    {
      if i < |a| && j >= |a| {
        assert all[i] == a[i] && all[j] == b[j - |a|];
        assert ReportedColumns(a[i]) <= after && ReportedColumns(b[j - |a|]) !! after;
      } else if i >= |a| {
        assert all[i] == b[i - |a|] && all[j] == b[j - |a|];
      }
    }
  }

  lemma {:induction false} SettleReports(t: Row, target: Supply, shape: TableShape, seen: set<nat>)
    requires |t| == shape.width && Fits(target.rows, shape)
    ensures var s := Settle(t, target, shape, seen);
      FreshReports(s.events, seen) && ReportsWithin(s.events, s.seen) && seen <= s.seen
    decreases |target.rows|
  {
    if PassesOver(t, target, shape) {
      var later := Supply(target.rows[1..], target.fails);
      SettleReports(t, later, shape, seen);
      var s := Settle(t, later, shape, seen);
      FreshAppend([Extraneous(target.rows[0][..shape.nPk])], s.events, seen, seen);
    }
  }

  lemma {:induction false} ExtrasReport(rows: seq<Row>, n: nat, seen: set<nat>)
    requires forall i :: 0 <= i < |rows| ==> n <= |rows[i]|
    ensures FreshReports(Extras(rows, n), seen)
  {
    if rows != [] {
      ExtrasReport(rows[1..], n, seen);
      FreshAppend([Extraneous(rows[0][..n])], Extras(rows[1..], n), seen, seen);
    }
  }

  /** In one comparison every incomparable column is reported at most once, whatever the streams. */
  lemma {:induction false} ColumnsReportedOnce(truth: Supply, target: Supply, shape: TableShape, seen: set<nat>, noticed: bool)
    requires Fits(truth.rows, shape) && Fits(target.rows, shape)
    ensures FreshReports(Merge(truth, target, shape, seen, noticed).events, seen)
    decreases |truth.rows|
  {
    if truth.rows == [] {
      ExtrasReport(target.rows, shape.nPk, seen);
    } else {
      SettleShrinks(truth.rows[0], target, shape, seen);
      SettleReports(truth.rows[0], target, shape, seen);
      var s := Settle(truth.rows[0], target, shape, seen);
      var rest := Supply(truth.rows[1..], truth.fails);
      ColumnsReportedOnce(rest, s.target, shape, s.seen, noticed || s.exhausted);
      hide FreshReports, ReportsWithin;
      ScanReportsNothing(seen);
      FreshAppend([RowScan], s.events, seen, seen);
      WithinScan(s.events, s.seen);
      FreshAppend([RowScan] + s.events, Merge(rest, s.target, shape, s.seen, noticed || s.exhausted).events, seen, s.seen);
    }
  }

  lemma ScanReportsNothing(seen: set<nat>)
    ensures FreshReports([RowScan], seen) && ReportsWithin([RowScan], seen)
  {
  }

  lemma WithinScan(events: seq<Event>, seen: set<nat>)
    requires ReportsWithin(events, seen)
    ensures ReportsWithin([RowScan] + events, seen)
  {
  }

  // ---- Which columns are reported ----

  /** The rows that are compared: each row of truth with the row of the same key that it is settled by. */
  function SettledPair(t: Row, target: Supply, shape: TableShape): seq<(Row, Row)>
    requires |t| == shape.width && Fits(target.rows, shape)
    decreases |target.rows|
  {
    if target.rows == [] then []
    else if PassesOver(t, target, shape) then SettledPair(t, Supply(target.rows[1..], target.fails), shape)
    else if KeyCompare(t[..shape.nPk], target.rows[0][..shape.nPk]) == 0 then [(t, target.rows[0])]
    else []
  }

  function Pairs(truth: Supply, target: Supply, shape: TableShape): seq<(Row, Row)>
    requires Fits(truth.rows, shape) && Fits(target.rows, shape)
    decreases |truth.rows|
  {
    if truth.rows == [] then []
    else
      SettleShrinks(truth.rows[0], target, shape, {});
      SettledPair(truth.rows[0], target, shape)
      + Pairs(Supply(truth.rows[1..], truth.fails), Settle(truth.rows[0], target, shape, {}).target, shape)
  }

  predicate ComparesAs(p: (Row, Row), shape: TableShape, c: nat, outcome: ColumnOutcome) {
    shape.nPk <= c < |p.1| <= |p.0| && shape.compare(c, p.0[c], p.1[c]) == outcome
  }

  lemma {:induction false} ColumnsMean(t: Row, g: Row, n: nat, i: nat, compare: Comparator, outcome: ColumnOutcome, c: nat)
    requires i <= |g| <= |t|
    ensures c in Columns(t, g, n, i, compare, outcome) <==> n <= c < i && compare(c, t[c], g[c]) == outcome
  {
    if i > n {
      ColumnsMean(t, g, n, i - 1, compare, outcome, c);
    }
  }

  /** The columns that cannot be compared in a pair. */
  function IncomparableIn(p: (Row, Row), shape: TableShape): (columns: set<nat>)
    requires shape.nPk <= |p.1| <= |p.0|
    ensures forall c :: c in columns <==> ComparesAs(p, shape, c, Incomparable)
  {
    forall c ensures c in Columns(p.0, p.1, shape.nPk, |p.1|, shape.compare, Incomparable) <==> ComparesAs(p, shape, c, Incomparable) {
      ColumnsMean(p.0, p.1, shape.nPk, |p.1|, shape.compare, Incomparable, c);
    }
    ToSet(Columns(p.0, p.1, shape.nPk, |p.1|, shape.compare, Incomparable))
  }

  /** No column differs in the pair. */
  predicate Alike(p: (Row, Row), shape: TableShape)
    requires shape.nPk <= |p.1| <= |p.0|
  {
    Columns(p.0, p.1, shape.nPk, |p.1|, shape.compare, Differs) == []
  }

  lemma AlikeMeans(p: (Row, Row), shape: TableShape)
    requires shape.nPk <= |p.1| <= |p.0|
    ensures Alike(p, shape) <==> forall c: nat :: !ComparesAs(p, shape, c, Differs)
  {
    var differing := Columns(p.0, p.1, shape.nPk, |p.1|, shape.compare, Differs);
    forall c ensures c in differing <==> ComparesAs(p, shape, c, Differs) {
      ColumnsMean(p.0, p.1, shape.nPk, |p.1|, shape.compare, Differs, c);
    }
    assert differing != [] ==> differing[0] in differing;
  }

  /** Every column reported somewhere in a log. */
  function AllReported(events: seq<Event>): set<nat> {
    if events == [] then {} else ReportedColumns(events[0]) + AllReported(events[1..])
  }

  lemma {:induction false} AllReportedAppend(a: seq<Event>, b: seq<Event>)
    ensures AllReported(a + b) == AllReported(a) + AllReported(b)
  {
    if a == [] {
      assert a + b == b;
    } else {
      AllReportedAppend(a[1..], b);
      assert (a + b)[1..] == a[1..] + b;
    }
  }

  ghost predicate PairsFit(pairs: seq<(Row, Row)>, shape: TableShape) {
    shape.nPk <= shape.width && forall i :: 0 <= i < |pairs| ==> |pairs[i].0| == |pairs[i].1| == shape.width
  }

  /** The columns reported for these pairs, one after the other. */
  ghost function ReportedFor(pairs: seq<(Row, Row)>, shape: TableShape, seen: set<nat>): set<nat>
    requires PairsFit(pairs, shape)
  {
    if pairs == [] then {}
    else
      var here := IncomparableIn(pairs[0], shape);
      (if Alike(pairs[0], shape) && here !! seen then here else {}) + ReportedFor(pairs[1..], shape, seen + here)
  }

  lemma {:induction false} ExtrasSilent(rows: seq<Row>, n: nat)
    requires forall i :: 0 <= i < |rows| ==> n <= |rows[i]|
    ensures AllReported(Extras(rows, n)) == {}
  {
    if rows != [] {
      ExtrasSilent(rows[1..], n);
    }
  }

  lemma {:induction false} SettleReported(t: Row, target: Supply, shape: TableShape, seen: set<nat>)
    requires |t| == shape.width && Fits(target.rows, shape)
    ensures var s, pair := Settle(t, target, shape, seen), SettledPair(t, target, shape);
      && PairsFit(pair, shape) && |pair| <= 1 && s.target == Settle(t, target, shape, {}).target
      && AllReported(s.events) == ReportedFor(pair, shape, seen)
      && s.seen == seen + if pair == [] then {} else IncomparableIn(pair[0], shape)
    decreases |target.rows|
  {
    if PassesOver(t, target, shape) {
      SettleReported(t, Supply(target.rows[1..], target.fails), shape, seen);
      AllReportedAppend([Extraneous(target.rows[0][..shape.nPk])], Settle(t, Supply(target.rows[1..], target.fails), shape, seen).events);
    }
  }

  lemma {:induction false} ReportedForAppend(a: seq<(Row, Row)>, b: seq<(Row, Row)>, shape: TableShape, seen: set<nat>)
    requires PairsFit(a, shape) && PairsFit(b, shape) && |a| <= 1
    ensures PairsFit(a + b, shape)
    ensures ReportedFor(a + b, shape, seen)
      == ReportedFor(a, shape, seen) + ReportedFor(b, shape, seen + if a == [] then {} else IncomparableIn(a[0], shape))
  {
    if a == [] {
      assert a + b == b && seen + {} == seen;
    } else {
      assert (a + b)[1..] == b && a[1..] == [];
    }
  }

  lemma ReportedParts(first: seq<Event>, later: seq<Event>)
    ensures AllReported([RowScan] + first + later) == AllReported(first) + AllReported(later)
  {
    AllReportedAppend([RowScan] + first, later);
    AllReportedAppend([RowScan], first);
    ScanSilent();
  }

  /** The log of a comparison reports what its pairs give rise to, whatever lies between them. */
  lemma {:induction false} MergeReported(truth: Supply, target: Supply, shape: TableShape, seen: set<nat>, noticed: bool)
    requires Fits(truth.rows, shape) && Fits(target.rows, shape)
    ensures PairsFit(Pairs(truth, target, shape), shape)
    ensures AllReported(Merge(truth, target, shape, seen, noticed).events) == ReportedFor(Pairs(truth, target, shape), shape, seen)
    decreases |truth.rows|
  {
    if truth.rows == [] {
      ExtrasSilent(target.rows, shape.nPk);
    } else {
      var t, rest := truth.rows[0], Supply(truth.rows[1..], truth.fails);
      SettleShrinks(t, target, shape, seen);
      SettleReported(t, target, shape, seen);
      var s, pair := Settle(t, target, shape, seen), SettledPair(t, target, shape);
      MergeReported(rest, s.target, shape, s.seen, noticed || s.exhausted);
      var later := Merge(rest, s.target, shape, s.seen, noticed || s.exhausted);
      hide Settle, SettledPair, ReportedFor, IncomparableIn, PairsFit, AllReported;
      ReportedParts(s.events, later.events);
      ReportedForAppend(pair, Pairs(rest, s.target, shape), shape, seen);
    }
  }

  lemma ScanSilent()
    ensures AllReported([RowScan]) == {}
  {
  }

  /** At pair i column c is met for the first time, no column differs, and every other column that cannot be
      compared there is met for the first time, too. */
  ghost predicate MetAlone(pairs: seq<(Row, Row)>, shape: TableShape, seen: set<nat>, c: nat, i: nat)
    requires i < |pairs|
  {
    && ComparesAs(pairs[i], shape, c, Incomparable)
    && (forall d: nat :: !ComparesAs(pairs[i], shape, d, Differs))
    && forall d: nat :: ComparesAs(pairs[i], shape, d, Incomparable) ==>
         d !in seen && forall j :: 0 <= j < i ==> !ComparesAs(pairs[j], shape, d, Incomparable)
  }

  lemma MetAloneFirst(pairs: seq<(Row, Row)>, shape: TableShape, seen: set<nat>, c: nat)
    requires PairsFit(pairs, shape) && pairs != []
    ensures MetAlone(pairs, shape, seen, c, 0) <==>
      Alike(pairs[0], shape) && IncomparableIn(pairs[0], shape) !! seen && c in IncomparableIn(pairs[0], shape)
  {
    var here := IncomparableIn(pairs[0], shape);
    AlikeMeans(pairs[0], shape);
    assert here !! seen <==> forall d :: d in here ==> d !in seen;
  }

  lemma MetAloneLater(pairs: seq<(Row, Row)>, shape: TableShape, seen: set<nat>, c: nat, i: nat)
    requires PairsFit(pairs, shape) && 0 < i < |pairs|
    ensures MetAlone(pairs, shape, seen, c, i) <==>
      MetAlone(pairs[1..], shape, seen + IncomparableIn(pairs[0], shape), c, i - 1)
  {
    var here, rest := IncomparableIn(pairs[0], shape), pairs[1..];
    assert rest[i - 1] == pairs[i];
    hide IncomparableIn;
    forall d: nat | ComparesAs(pairs[i], shape, d, Incomparable)
      ensures (d !in seen && forall j :: 0 <= j < i ==> !ComparesAs(pairs[j], shape, d, Incomparable))
        <==> (d !in seen + here && forall j :: 0 <= j < i - 1 ==> !ComparesAs(rest[j], shape, d, Incomparable))
    {
      hide ComparesAs;
      assert forall j :: 0 <= j < i - 1 ==> rest[j] == pairs[j + 1];
      assert forall j :: 1 <= j < i ==> pairs[j] == rest[j - 1];
    }
  }

  lemma {:induction false} ReportedForMeans(pairs: seq<(Row, Row)>, shape: TableShape, seen: set<nat>, c: nat)
    requires PairsFit(pairs, shape)
    ensures c in ReportedFor(pairs, shape, seen) <==> exists i :: 0 <= i < |pairs| && MetAlone(pairs, shape, seen, c, i)
  {
    if pairs != [] {
      var here, rest := IncomparableIn(pairs[0], shape), pairs[1..];
      ReportedForMeans(rest, shape, seen + here, c);
      MetAloneFirst(pairs, shape, seen, c);
      hide MetAlone, IncomparableIn, Alike, PairsFit;
      forall i | 0 < i < |pairs|
        ensures MetAlone(pairs, shape, seen, c, i) <==> MetAlone(rest, shape, seen + here, c, i - 1)
      {
        MetAloneLater(pairs, shape, seen, c, i);
      }
      if i :| 0 <= i < |rest| && MetAlone(rest, shape, seen + here, c, i) {
        assert MetAlone(pairs, shape, seen, c, i + 1);
      }
    }
  }

  /** A column is reported exactly if the first pair in which it cannot be compared has no column that differs and
      no column that could not be compared in a pair before. */
  lemma ReportedExactly(truth: Supply, target: Supply, shape: TableShape, seen: set<nat>, noticed: bool, c: nat)
    requires Fits(truth.rows, shape) && Fits(target.rows, shape)
    ensures var pairs := Pairs(truth, target, shape);
      c in AllReported(Merge(truth, target, shape, seen, noticed).events) <==>
        exists i :: 0 <= i < |pairs| && MetAlone(pairs, shape, seen, c, i)
  {
    MergeReported(truth, target, shape, seen, noticed);
    ReportedForMeans(Pairs(truth, target, shape), shape, seen, c);
  }

  // ---- Columns that stay unreported ----

  /** Two streams that begin with the same key. */
  lemma PairsSameKey(truth: seq<Row>, target: seq<Row>, shape: TableShape)
    requires Fits(truth, shape) && Fits(target, shape) && truth != [] && target != []
    requires truth[0][..shape.nPk] == target[0][..shape.nPk]
    ensures Pairs(Supply(truth, false), Supply(target, false), shape)
      == [(truth[0], target[0])] + Pairs(Supply(truth[1..], false), Supply(target[1..], false), shape)
  {
    CompareSigns(truth[0][..shape.nPk], target[0][..shape.nPk]);
  }

  lemma TwoPairs(t: Row, g: Row, u: Row, v: Row, shape: TableShape)
    requires shape.nPk <= shape.width == |t| == |g| == |u| == |v|
    requires t[..shape.nPk] == g[..shape.nPk] && u[..shape.nPk] == v[..shape.nPk]
    ensures Fits([t, u], shape) && Fits([g, v], shape)
    ensures Pairs(Supply([t, u], false), Supply([g, v], false), shape) == [(t, g), (u, v)]
  {
    assert [t, u][1..] == [u] && [g, v][1..] == [v] && [u][1..] == [] && [v][1..] == [];
    PairsSameKey([t, u], [g, v], shape);
    PairsSameKey([u], [v], shape);
  }

  function SecondNever(i: nat, a: Datum, b: Datum): ColumnOutcome {
    if i == 2 then Incomparable else if a == b then Equal else Differs
  }

  /** Column 2 can never be compared.  It is first met in a row whose column 1 differs, and not reported. */
  lemma HiddenByMismatch()
    ensures var shape := TableShape(3, 1, SecondNever);
      var truth := [[DInt(1), DInt(5), DInt(0)], [DInt(2), DInt(5), DInt(0)]];
      var target := [[DInt(1), DInt(6), DInt(0)], [DInt(2), DInt(5), DInt(0)]];
      && Fits(truth, shape) && Fits(target, shape)
      && (forall p :: p in Pairs(Supply(truth, false), Supply(target, false), shape) ==> ComparesAs(p, shape, 2, Incomparable))
      && 2 !in AllReported(Merge(Supply(truth, false), Supply(target, false), shape, {}, false).events)
  {
    var shape := TableShape(3, 1, SecondNever);
    var t, g, u := [DInt(1), DInt(5), DInt(0)], [DInt(1), DInt(6), DInt(0)], [DInt(2), DInt(5), DInt(0)];
    TwoPairs(t, g, u, u, shape);
    var pairs := [(t, g), (u, u)];
    assert ComparesAs(pairs[0], shape, 1, Differs) && ComparesAs(pairs[0], shape, 2, Incomparable);
    assert !MetAlone(pairs, shape, {}, 2, 0) && !MetAlone(pairs, shape, {}, 2, 1);
    hide Pairs, Merge, MetAlone, Fits, AllReported;
    ReportedExactly(Supply([t, u], false), Supply([g, u], false), shape, {}, false, 2);
  }

  function FirstNeverNines(i: nat, a: Datum, b: Datum): ColumnOutcome {
    if i == 1 || a == DInt(9) then Incomparable else if a == b then Equal else Differs
  }

  /** Column 2 cannot be compared where it holds a 9.  It is first met beside column 1, which was met before, and
      not reported although no column of any row differs. */
  lemma HiddenBeside()
    ensures var shape := TableShape(3, 1, FirstNeverNines);
      var rows := [[DInt(1), DInt(0), DInt(0)], [DInt(2), DInt(0), DInt(9)]];
      && Fits(rows, shape)
      && (exists p :: p in Pairs(Supply(rows, false), Supply(rows, false), shape) && ComparesAs(p, shape, 2, Incomparable))
      && 2 !in AllReported(Merge(Supply(rows, false), Supply(rows, false), shape, {}, false).events)
  {
    var shape := TableShape(3, 1, FirstNeverNines);
    var t, u := [DInt(1), DInt(0), DInt(0)], [DInt(2), DInt(0), DInt(9)];
    TwoPairs(t, t, u, u, shape);
    var pairs := [(t, t), (u, u)];
    assert ComparesAs(pairs[0], shape, 1, Incomparable) && ComparesAs(pairs[1], shape, 1, Incomparable);
    assert !ComparesAs(pairs[0], shape, 2, Incomparable) && ComparesAs(pairs[1], shape, 2, Incomparable);
    assert !MetAlone(pairs, shape, {}, 2, 0) && !MetAlone(pairs, shape, {}, 2, 1);
    assert (u, u) in pairs;
    hide Pairs, Merge, MetAlone, Fits, AllReported;
    ReportedExactly(Supply([t, u], false), Supply([t, u], false), shape, {}, false, 2);
  }
}

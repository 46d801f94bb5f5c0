/** What the merge join means: on key-ordered streams its findings are the difference of two
    tables, and on any streams they account for every row. */
module Diff {
  import opened Keys
  import opened ScanIterators
  import opened RowEvents
  import opened RowVerify
  import opened Seqs

  // ---- The reference: two tables as maps from primary key to row ----

  datatype Finding =
    | MissingRow
    | ExtraneousRow
    | Mismatched(columns: seq<nat>)
    | Conditional(incomparable: seq<nat>)
    | Matched

  type Table = map<Key, Row>

  function TableOf(rows: seq<Row>, n: nat): Table
    requires forall i :: 0 <= i < |rows| ==> n <= |rows[i]|
  {
    if rows == [] then map[] else TableOf(rows[1..], n)[rows[0][..n] := rows[0]]
  }

  /** How two rows of one key compare, by columns.  Rows of another width do not occur. */
  function Classify(t: Row, g: Row, shape: TableShape): Finding {
    if |t| != shape.width || |g| != shape.width || shape.nPk > shape.width then Matched
    else
      var differing := Columns(t, g, shape.nPk, |g|, shape.compare, Differs);
      var incomparable := Columns(t, g, shape.nPk, |g|, shape.compare, Incomparable);
      if differing != [] then Mismatched(differing)
      else if incomparable != [] then Conditional(incomparable)
      else Matched
  }

  function Judge(truth: Table, target: Table, shape: TableShape, k: Key): Finding
    requires k in truth || k in target
  {
    if k !in target then MissingRow
    else if k !in truth then ExtraneousRow
    else Classify(truth[k], target[k], shape)
  }

  /** The plain difference of two tables: one finding for every key of either. */
  function DiffTables(truth: Table, target: Table, shape: TableShape): map<Key, Finding> {
    map k | k in truth.Keys + target.Keys :: Judge(truth, target, shape, k)
  }

  // ---- Findings in an event log ----

  function FindingOf(e: Event): (Key, Finding)
    requires !e.RowScan?
  {
    match e
    case Missing(k, _) => (k, MissingRow)
    case Extraneous(k) => (k, ExtraneousRow)
    case Mismatch(k, cols) => (k, Mismatched(cols))
    case ColumnMismatch(k, cols, _) => (k, Conditional(cols))
    case Match(k) => (k, Matched)
  }

  function FindingIn(e: Event): multiset<(Key, Finding)> {
    if e.RowScan? then multiset{} else multiset{FindingOf(e)}
  }

  /** All findings of a log, with multiplicity. */
  function Findings(log: seq<Event>): multiset<(Key, Finding)> {
    if log == [] then multiset{} else FindingIn(log[0]) + Findings(log[1..])
  }

  lemma {:induction false} FindingsAppend(a: seq<Event>, b: seq<Event>)
    ensures Findings(a + b) == Findings(a) + Findings(b)
  {
    hide FindingIn;
    if a == [] {
      assert a + b == b;
    } else {
      FindingsAppend(a[1..], b);
      FirstOfAppend(a, b);
    }
  }

  lemma FindingsOne(e: Event)
    ensures Findings([e]) == FindingIn(e)
  {
    assert Findings([e][1..]) == multiset{};
  }

  lemma RowEventFinding(t: Row, g: Row, shape: TableShape, seen: set<nat>)
    requires |t| == |g| == shape.width && shape.nPk <= shape.width
    ensures FindingIn(RowEvent(t, g, shape, seen)) == multiset{(g[..shape.nPk], Classify(t, g, shape))}
  {
  }

  // ---- Ordered streams: the merge join computes the difference ----

  lemma {:induction false} TableKeys(rows: seq<Row>, n: nat, k: Key)
    requires forall i :: 0 <= i < |rows| ==> n <= |rows[i]|
    ensures k in TableOf(rows, n) <==> exists i :: 0 <= i < |rows| && rows[i][..n] == k
  {
    if rows != [] {
      TableKeys(rows[1..], n, k);
      if k in TableOf(rows[1..], n) {
        var i :| 0 <= i < |rows[1..]| && rows[1..][i][..n] == k;
        assert rows[i + 1][..n] == k;
      }
      forall i | 0 <= i < |rows| && rows[i][..n] == k
        ensures k in TableOf(rows, n)
      {
        if i > 0 {
          assert rows[1..][i - 1][..n] == k;
        }
      }
    }
  }

  /** A key below the first of an ordered stream, or that first key itself, is not in the rest. */
  lemma KeyNotAfter(rows: seq<Row>, n: nat, k: Key)
    requires SortedRows(rows, n) && |k| == n && rows != []
    ensures KeyLess(k, rows[0][..n]) ==> k !in TableOf(rows, n)
    ensures k == rows[0][..n] ==> k !in TableOf(rows[1..], n)
  {
    TableKeys(rows, n, k);
    TableKeys(rows[1..], n, k);
    forall i | 0 <= i < |rows| && rows[i][..n] == k
      ensures !KeyLess(k, rows[0][..n]) && (k == rows[0][..n] ==> i == 0)
    {
      CompareSigns(k, k);
      if i > 0 {
        CompareFlip(rows[0][..n], rows[i][..n]);
      }
    }
  }

  /** One key taken out of both tables takes exactly its finding out of the difference. */
  lemma DiffWithout(truth: Table, target: Table, truth': Table, target': Table, shape: TableShape, k: Key)
    requires k in truth || k in target
    requires truth' == truth - {k} && target' == target - {k}
    ensures multiset(DiffTables(truth, target, shape).Items)
         == multiset{(k, Judge(truth, target, shape, k))} + multiset(DiffTables(truth', target', shape).Items)
  {
    var d, d' := DiffTables(truth, target, shape), DiffTables(truth', target', shape);
    assert d.Items == {(k, d[k])} + d'.Items by {
      forall x | x in d.Items
        ensures x in {(k, d[k])} + d'.Items
      {
        if x.0 != k {
          assert x.0 in d' && d'[x.0] == x.1;
        }
      }
    }
    assert (k, d[k]) !in d'.Items;
  }

  lemma TableWithoutFirst(rows: seq<Row>, n: nat)
    requires SortedRows(rows, n) && rows != []
    ensures TableOf(rows[1..], n) == TableOf(rows, n) - {rows[0][..n]}
    ensures TableOf(rows, n)[rows[0][..n]] == rows[0]
  {
    KeyNotAfter(rows, n, rows[0][..n]);
  }

  /** The difference of two row streams, as findings. */
  function DiffRows(truth: seq<Row>, target: seq<Row>, shape: TableShape): multiset<(Key, Finding)>
    requires Fits(truth, shape) && Fits(target, shape)
  {
    multiset(DiffTables(TableOf(truth, shape.nPk), TableOf(target, shape.nPk), shape).Items)
  }

  ghost predicate Ordered(rows: seq<Row>, shape: TableShape) {
    Fits(rows, shape) && SortedRows(rows, shape.nPk)
  }

  lemma DropTarget(truth: seq<Row>, target: seq<Row>, shape: TableShape)
    requires Ordered(truth, shape) && Ordered(target, shape) && target != []
    requires truth == [] || KeyLess(target[0][..shape.nPk], truth[0][..shape.nPk])
    ensures DiffRows(truth, target, shape)
         == multiset{(target[0][..shape.nPk], ExtraneousRow)} + DiffRows(truth, target[1..], shape)
  {
    var t, g, k := TableOf(truth, shape.nPk), TableOf(target, shape.nPk), target[0][..shape.nPk];
    TableWithoutFirst(target, shape.nPk);
    if truth != [] { KeyNotAfter(truth, shape.nPk, k); }
    assert t - {k} == t;
    DiffWithout(t, g, t, g - {k}, shape, k);
  }

  lemma DropTruth(truth: seq<Row>, target: seq<Row>, shape: TableShape)
    requires Ordered(truth, shape) && Ordered(target, shape) && truth != []
    requires target == [] || KeyLess(truth[0][..shape.nPk], target[0][..shape.nPk])
    ensures DiffRows(truth, target, shape)
         == multiset{(truth[0][..shape.nPk], MissingRow)} + DiffRows(truth[1..], target, shape)
  {
    var t, g, k := TableOf(truth, shape.nPk), TableOf(target, shape.nPk), truth[0][..shape.nPk];
    TableWithoutFirst(truth, shape.nPk);
    if target != [] { KeyNotAfter(target, shape.nPk, k); }
    assert g - {k} == g;
    DiffWithout(t, g, t - {k}, g, shape, k);
  }

  lemma DropBoth(truth: seq<Row>, target: seq<Row>, shape: TableShape)
    requires Ordered(truth, shape) && Ordered(target, shape) && truth != [] && target != []
    requires truth[0][..shape.nPk] == target[0][..shape.nPk]
    ensures DiffRows(truth, target, shape)
         == multiset{(truth[0][..shape.nPk], Classify(truth[0], target[0], shape))} + DiffRows(truth[1..], target[1..], shape)
  {
    var t, g, k := TableOf(truth, shape.nPk), TableOf(target, shape.nPk), truth[0][..shape.nPk];
    TableWithoutFirst(truth, shape.nPk);
    TableWithoutFirst(target, shape.nPk);
    DiffWithout(t, g, t - {k}, g - {k}, shape, k);
  }

  /** Settling one row of truth reports the findings by which the difference shrinks. */
  lemma {:induction false} SettleFindings(truth: seq<Row>, target: seq<Row>, shape: TableShape, seen: set<nat>)
    requires Ordered(truth, shape) && Ordered(target, shape) && truth != []
    ensures var s := Settle(truth[0], Supply(target, false), shape, seen);
      && Ordered(s.target.rows, shape)
      && DiffRows(truth, target, shape) == Findings(s.events) + DiffRows(truth[1..], s.target.rows, shape)
    decreases |target|
  {
    hide DiffRows, Findings, Classify, RowEvent;
    if target == [] || KeyCompare(truth[0][..shape.nPk], target[0][..shape.nPk]) < 0 {
      DropTruth(truth, target, shape);
      FindingsOne(Missing(truth[0][..shape.nPk], truth[0]));
    } else {
      var kt, kg := truth[0][..shape.nPk], target[0][..shape.nPk];
      CompareFlip(kt, kg);
      CompareSigns(kt, kg);
      if KeyCompare(kt, kg) > 0 {
        DropTarget(truth, target, shape);
        SettleFindings(truth, target[1..], shape, seen);
        var later := Settle(truth[0], Supply(target[1..], false), shape, seen);
        FindingsAppend([Extraneous(kg)], later.events);
        FindingsOne(Extraneous(kg));
      } else {
        DropBoth(truth, target, shape);
        FindingsOne(RowEvent(truth[0], target[0], shape, seen));
        RowEventFinding(truth[0], target[0], shape, seen);
      }
    }
  }

  /** Rows that only the target still has. */
  lemma {:induction false} ExtrasFindings(rows: seq<Row>, shape: TableShape)
    requires Ordered(rows, shape)
    ensures Findings(Extras(rows, shape.nPk)) == DiffRows([], rows, shape)
  {
    if rows == [] {
      assert DiffTables(map[], map[], shape).Items == {};
    } else {
      ExtrasFindings(rows[1..], shape);
      DropTarget([], rows, shape);
    }
  }

  /** The merge join refines the difference of two tables: over error-free streams in key order
      it reports every key of either table exactly once, with the right finding. */
  lemma {:induction false} MergeIsDiff(truth: seq<Row>, target: seq<Row>, shape: TableShape, seen: set<nat>, noticed: bool)
    requires Ordered(truth, shape) && Ordered(target, shape)
    ensures var m := Merge(Supply(truth, false), Supply(target, false), shape, seen, noticed);
      m.result == NoError && Findings(m.events) == DiffRows(truth, target, shape)
    decreases |truth|
  {
    hide DiffRows, Findings;
    if truth == [] {
      ExtrasFindings(target, shape);
    } else {
      hide Settle;
      SettleFindings(truth, target, shape, seen);
      SettleShrinks(truth[0], Supply(target, false), shape, seen);
      var s := Settle(truth[0], Supply(target, false), shape, seen);
      MergeIsDiff(truth[1..], s.target.rows, shape, s.seen, noticed || s.exhausted);
      var later := Merge(Supply(truth[1..], false), s.target, shape, s.seen, noticed || s.exhausted);
      FindingsAppend([RowScan] + s.events, later.events);
      FindingsAppend([RowScan], s.events);
      FindingsOne(RowScan);
    }
  }

  lemma MergeStep(truth: Supply, target: Supply, shape: TableShape, seen: set<nat>, noticed: bool)
    requires Fits(truth.rows, shape) && Fits(target.rows, shape) && truth.rows != []
    ensures var s := Settle(truth.rows[0], target, shape, seen);
      && Fits(s.target.rows, shape) && s.target.fails == target.fails
      && var later := Merge(Supply(truth.rows[1..], truth.fails), s.target, shape, s.seen, noticed || s.exhausted);
        Merge(truth, target, shape, seen, noticed) == Merged([RowScan] + s.events + later.events, later.result)
  {
    SettleShrinks(truth.rows[0], target, shape, seen);
    hide Settle, Extras;
  }

  // ---- Any streams: the counters account for every row ----

  function AddStats(a: RowStats, b: RowStats): RowStats {
    RowStats(
      a.numVerified + b.numVerified, a.numSuccess + b.numSuccess,
      a.numConditionalSuccess + b.numConditionalSuccess, a.numMissing + b.numMissing,
      a.numMismatch + b.numMismatch, a.numExtraneous + b.numExtraneous,
      a.numColumnMismatch + b.numColumnMismatch)
  }

  lemma BumpAdd(a: RowStats, b: RowStats, e: Event)
    ensures Bump(AddStats(a, b), e) == AddStats(a, Bump(b, e))
  {
  }

  lemma TallySplit(log: seq<Event>)
    requires log != []
    ensures Tally(log) == Bump(Tally(log[..|log| - 1]), log[|log| - 1])
  {
  }

  lemma TallyNothing(a: RowStats)
    ensures AddStats(a, Tally([])) == a
  {
  }

  lemma {:induction false} TallyAppend(a: seq<Event>, b: seq<Event>)
    ensures Tally(a + b) == AddStats(Tally(a), Tally(b))
  {
    hide Tally, Bump, AddStats;
    if b == [] {
      assert a + b == a;
      TallyNothing(Tally(a));
    } else {
      TallySplit(b);
      TallySplit(a + b);
      LastOfAppend(a, b);
      TallyAppend(a, b[..|b| - 1]);
      BumpAdd(Tally(a), Tally(b[..|b| - 1]), b[|b| - 1]);
    }
  }

  /** Every scanned row of truth is matched, conditionally matched, mismatching or missing, and
      every consumed row of the target is matched, conditionally matched, mismatching or extraneous. */
  ghost predicate Accounts(s: RowStats, truthRows: nat, targetRows: nat) {
    && s.numVerified == truthRows
    && truthRows == s.numSuccess + s.numConditionalSuccess + s.numMismatch + s.numMissing
    && targetRows == s.numSuccess + s.numConditionalSuccess + s.numMismatch + s.numExtraneous
  }

  lemma {:induction false} SettleTally(t: Row, target: Supply, shape: TableShape, seen: set<nat>)
    requires |t| == shape.width && Fits(target.rows, shape) && !target.fails
    ensures var s := Settle(t, target, shape, seen);
      && |s.target.rows| <= |target.rows| && Tally(s.events).numVerified == 0
      && Accounts(AddStats(Tally([RowScan]), Tally(s.events)), 1, |target.rows| - |s.target.rows|)
    decreases |target.rows|
  {
    var s := Settle(t, target, shape, seen);
    TallyOne(RowScan);
    hide Tally;
    if target.rows != [] && KeyCompare(t[..shape.nPk], target.rows[0][..shape.nPk]) > 0 {
      var later := Supply(target.rows[1..], false);
      SettleTally(t, later, shape, seen);
      var e := Extraneous(target.rows[0][..shape.nPk]);
      TallyOne(e);
      TallyAppend([e], Settle(t, later, shape, seen).events);
    } else {
      SettlesAtOnce(t, target, shape, seen);
      TallyOne(s.events[0]);
    }
  }

  lemma SettlesAtOnce(t: Row, target: Supply, shape: TableShape, seen: set<nat>)
    requires |t| == shape.width && Fits(target.rows, shape) && !target.fails && !PassesOver(t, target, shape)
    ensures var s := Settle(t, target, shape, seen);
      && |s.events| == 1 && s.events == [s.events[0]] && !s.events[0].RowScan? && !s.events[0].Extraneous?
      && |s.target.rows| == |target.rows| - if s.events[0].Missing? then 0 else 1
  {
  }

  lemma TallyOne(e: Event)
    ensures Tally([e]) == Bump(NO_STATS, e)
  {
    assert [e][..0] == [];
  }

  lemma {:induction false} ExtrasTally(rows: seq<Row>, n: nat)
    requires forall i :: 0 <= i < |rows| ==> n <= |rows[i]|
    ensures Tally(Extras(rows, n)) == NO_STATS.(numExtraneous := |rows|)
  {
    if rows != [] {
      ExtrasTally(rows[1..], n);
      TallyOne(Extraneous(rows[0][..n]));
      TallyAppend([Extraneous(rows[0][..n])], Extras(rows[1..], n));
    }
  }

  lemma AccountsAdd(a: RowStats, b: RowStats, rows: nat, targetRows: nat, moreRows: nat, moreTargetRows: nat)
    requires Accounts(a, rows, targetRows) && Accounts(b, moreRows, moreTargetRows)
    ensures Accounts(AddStats(a, b), rows + moreRows, targetRows + moreTargetRows)
  {
  }

  /** Conservation, whatever the order of the streams. */
  lemma {:induction false} MergeConserves(truth: Supply, target: Supply, shape: TableShape, seen: set<nat>, noticed: bool)
    requires Fits(truth.rows, shape) && Fits(target.rows, shape) && !truth.fails && !target.fails
    ensures Accounts(Tally(Merge(truth, target, shape, seen, noticed).events), |truth.rows|, |target.rows|)
    decreases |truth.rows|
  {
    if truth.rows == [] {
      ExtrasTally(target.rows, shape.nPk);
    } else {
      MergeStep(truth, target, shape, seen, noticed);
      SettleTally(truth.rows[0], target, shape, seen);
      hide Merge, Settle, Tally, AddStats, Accounts;
      var s := Settle(truth.rows[0], target, shape, seen);
      var rest := Supply(truth.rows[1..], false);
      MergeConserves(rest, s.target, shape, s.seen, noticed || s.exhausted);
      var later := Merge(rest, s.target, shape, s.seen, noticed || s.exhausted);
      TallyAppend([RowScan] + s.events, later.events);
      TallyAppend([RowScan], s.events);
      AccountsAdd(Tally([RowScan] + s.events), Tally(later.events), 1, |target.rows| - |s.target.rows|, |rest.rows|, |s.target.rows|);
    }
  }

  // ---- Interrupted streams ----

  /** The events of a log without the progress ones. */
  function Decisions(log: seq<Event>): seq<Event> {
    if log == [] then []
    else (if log[0].RowScan? then [] else [log[0]]) + Decisions(log[1..])
  }

  lemma {:induction false} DecisionsAppend(a: seq<Event>, b: seq<Event>)
    ensures Decisions(a + b) == Decisions(a) + Decisions(b)
  {
    if a == [] {
      assert a + b == b;
    } else {
      DecisionsAppend(a[1..], b);
      FirstOfAppend(a, b);
      var d, rest := if a[0].RowScan? then [] else [a[0]], Decisions(a[1..]);
      Associate(d, rest, Decisions(b));
    }
  }

  /** A complete stream of which s delivers a part. */
  ghost predicate Completes(s: Supply, whole: seq<Row>) {
    s.rows <= whole && (!s.fails ==> s.rows == whole)
  }

  lemma {:induction false} SettlePart(t: Row, target: Supply, whole: seq<Row>, shape: TableShape, seen: set<nat>)
    requires |t| == shape.width && Fits(target.rows, shape) && Fits(whole, shape) && Completes(target, whole)
    ensures var s, c := Settle(t, target, shape, seen), Settle(t, Supply(whole, false), shape, seen);
      && s.target.fails == target.fails && !c.target.fails && Fits(c.target.rows, shape)
      && (if s.exhausted && target.fails then s.target.rows == [] && Decisions(s.events) <= Decisions(c.events)
          else s.events == c.events && s.seen == c.seen && s.exhausted == c.exhausted && Completes(s.target, c.target.rows))
    decreases |target.rows|
  {
    if target.rows != [] {
      assert whole[0] == target.rows[0];
      if KeyCompare(t[..shape.nPk], target.rows[0][..shape.nPk]) > 0 {
        SettlePart(t, Supply(target.rows[1..], target.fails), whole[1..], shape, seen);
      }
    } else {
      SettleShrinks(t, Supply(whole, false), shape, seen);
    }
  }

  /** Once a failed target has run dry no further finding is made. */
  lemma {:induction false} DrySilent(truth: Supply, shape: TableShape, seen: set<nat>, noticed: bool)
    requires Fits(truth.rows, shape)
    ensures Decisions(Merge(truth, Supply([], true), shape, seen, noticed).events) == []
    decreases |truth.rows|
  {
    if truth.rows != [] {
      DrySilent(Supply(truth.rows[1..], truth.fails), shape, seen, true);
    }
  }

  lemma MergeDecisions(truth: Supply, target: Supply, shape: TableShape, seen: set<nat>, noticed: bool, s: Settled)
    requires Fits(truth.rows, shape) && Fits(target.rows, shape) && truth.rows != []
    requires s == Settle(truth.rows[0], target, shape, seen)
    ensures Fits(s.target.rows, shape)
    ensures Decisions(Merge(truth, target, shape, seen, noticed).events)
         == Decisions(s.events)
          + Decisions(Merge(Supply(truth.rows[1..], truth.fails), s.target, shape, s.seen, noticed || s.exhausted).events)
  {
    MergeStep(truth, target, shape, seen, noticed);
    var later := Merge(Supply(truth.rows[1..], truth.fails), s.target, shape, s.seen, noticed || s.exhausted);
    assert Decisions([RowScan]) == [];
    hide Merge, Settle, Decisions;
    DecisionsAppend([RowScan] + s.events, later.events);
    DecisionsAppend([RowScan], s.events);
  }

  /** An interrupted comparison never reports anything that the complete one would not:
      its decisions are the first ones of the complete comparison. */
  lemma {:induction false} InterruptedIsPrefix(
    truth: Supply, target: Supply, wholeTruth: seq<Row>, wholeTarget: seq<Row>,
    shape: TableShape, seen: set<nat>, noticed: bool, noticed': bool)
    requires Fits(wholeTruth, shape) && Fits(wholeTarget, shape)
    requires Completes(truth, wholeTruth) && Completes(target, wholeTarget)
    ensures Fits(truth.rows, shape) && Fits(target.rows, shape)
    ensures Decisions(Merge(truth, target, shape, seen, noticed).events)
         <= Decisions(Merge(Supply(wholeTruth, false), Supply(wholeTarget, false), shape, seen, noticed').events)
    decreases |truth.rows|
  {
    if truth.rows == [] {
      if !truth.fails && !(noticed && target.fails) {
        ExtrasPart(target.rows, wholeTarget, shape.nPk);
      }
    } else {
      hide Settle, Merge, Decisions, Completes;
      var t := truth.rows[0];
      assert wholeTruth[0] == t && Completes(Supply(truth.rows[1..], truth.fails), wholeTruth[1..]);
      var s, c := Settle(t, target, shape, seen), Settle(t, Supply(wholeTarget, false), shape, seen);
      SettlePart(t, target, wholeTarget, shape, seen);
      MergeDecisions(truth, target, shape, seen, noticed, s);
      MergeDecisions(Supply(wholeTruth, false), Supply(wholeTarget, false), shape, seen, noticed', c);
      var rest := Supply(truth.rows[1..], truth.fails);
      if s.exhausted && target.fails {
        DrySilent(rest, shape, s.seen, true);
      } else {
        InterruptedIsPrefix(rest, s.target, wholeTruth[1..], c.target.rows, shape, s.seen,
          noticed || s.exhausted, noticed' || c.exhausted);
      }
    }
  }

  lemma {:induction false} ExtrasPart(part: seq<Row>, whole: seq<Row>, n: nat)
    requires part <= whole && forall i :: 0 <= i < |whole| ==> n <= |whole[i]|
    ensures Decisions(Extras(part, n)) <= Decisions(Extras(whole, n))
  {
    if part != [] {
      assert whole[0] == part[0];
      var e := Extraneous(part[0][..n]);
      assert Extras(part, n) == [e] + Extras(part[1..], n) && Extras(whole, n) == [e] + Extras(whole[1..], n);
      assert Decisions([e]) == [e];
      hide Extras, Decisions;
      ExtrasPart(part[1..], whole[1..], n);
      DecisionsAppend([e], Extras(part[1..], n));
      DecisionsAppend([e], Extras(whole[1..], n));
    }
  }

  /** When a target failure goes unnoticed: verifyRows asks for the target's error before it
      drains the target, so a failure met only while draining is dropped and the run counts as
      clean.  It is noticed exactly if some row of truth lies after everything the target delivered. */
  lemma {:induction false} TargetFailureNoticed(truth: seq<Row>, target: seq<Row>, shape: TableShape, seen: set<nat>, noticed: bool)
    requires Ordered(truth, shape) && Ordered(target, shape)
    ensures Merge(Supply(truth, false), Supply(target, true), shape, seen, noticed).result
         == if noticed || LastAfter(truth, target, shape.nPk) then TargetError else NoError
    decreases |truth|
  {
    if truth != [] {
      var t := truth[0];
      SettleShrinks(t, Supply(target, true), shape, seen);
      var s := Settle(t, Supply(target, true), shape, seen);
      SettleOrder(truth, target, shape, seen);
      TargetFailureNoticed(truth[1..], s.target.rows, shape, s.seen, noticed || s.exhausted);
    }
  }

  ghost predicate LastAfter(truth: seq<Row>, target: seq<Row>, n: nat)
    requires SortedRows(truth, n) && SortedRows(target, n)
  {
    truth != [] && (target == [] || KeyLess(target[|target| - 1][..n], truth[|truth| - 1][..n]))
  }

  lemma {:induction false} SettleOrder(truth: seq<Row>, target: seq<Row>, shape: TableShape, seen: set<nat>)
    requires Ordered(truth, shape) && Ordered(target, shape) && truth != []
    ensures var s := Settle(truth[0], Supply(target, true), shape, seen);
      && s.target.fails && Ordered(s.target.rows, shape)
      && (LastAfter(truth, target, shape.nPk) <==> s.exhausted || LastAfter(truth[1..], s.target.rows, shape.nPk))
    decreases |target|
  {
    var n := shape.nPk;
    var t, last := truth[0][..n], truth[|truth| - 1][..n];
    if target != [] {
      var g, end := target[0][..n], target[|target| - 1][..n];
      CompareFlip(t, g);
      CompareSigns(t, g);
      if KeyCompare(t, g) > 0 {
        SettleOrder(truth, target[1..], shape, seen);
        if |target| == 1 && |truth| > 1 {
          CompareTrans(g, t, last);
        }
      } else {
        if |truth| == 1 {
          // the last target key is not before the only key of truth
          if |target| > 1 {
            CompareTrans(t, g, end);
            CompareFlip(t, end);
          }
        } else if KeyCompare(t, g) == 0 && |target| == 1 {
          assert t[..n] == t && end == t;
        }
      }
    }
  }

  /** A concrete run that ends clean although the target's second page failed: truth is (1), the
      target delivers (1) and then fails, so its further rows are never compared. */
  lemma DroppedFailure(compare: Comparator)
    ensures var truth, target := [[DInt(1)]], [[DInt(1)]];
      var m := Merge(Supply(truth, false), Supply(target, true), TableShape(1, 1, compare), {}, false);
      m.result == NoError && m.events == [RowScan, Match([DInt(1)])]
  {
    var row := [DInt(1)];
    var shape := TableShape(1, 1, compare);
    CompareSigns(row[..1], row[..1]);
    assert row[..1] == row;
    var s := Settle(row, Supply([row], true), shape, {});
    assert RowEvent(row, row, shape, {}) == Match(row);
    assert s == Settled([Match(row)], Supply([], true), {}, false);
    assert Merge(Supply([], false), Supply([], true), shape, {}, false) == Merged([], NoError);
  }
}

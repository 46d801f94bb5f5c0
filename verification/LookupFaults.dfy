/** What failing and interrupted lookups do to reverification. */
module LookupFaults {
  import opened Keys
  import opened Retries
  import opened ScanIterators
  import opened PointLookups
  import opened RowEvents
  import opened RowVerify
  import opened Diff
  import opened LiveRetries

  // ---- When a scan ends with an error ----

  predicate Breaks(w: World) {
    w.truthFault.QueryFails? || w.targetFault.QueryFails?
  }

  /** The rows that a lookup delivers. */
  function Delivered(table: seq<Row>, keys: seq<Key>, shape: TableShape, fault: LookupFault): seq<Row>
    requires forall r :: r in table ==> shape.nPk <= |r|
  {
    LookupSupply(table, keys, shape.nPk, fault).rows
  }

  lemma {:induction false} SilentTarget(truth: seq<Row>, shape: TableShape, seen: set<nat>, noticed: bool)
    requires Fits(truth, shape)
    ensures var m := Merge(Supply(truth, false), Supply([], true), shape, seen, noticed);
      && SuspectKeys(m.events) == []
      && (m.result == NoError <==> truth == [] && !noticed)
    decreases |truth|
  {
    if truth != [] {
      SilentTarget(truth[1..], shape, seen, true);
      var later := Merge(Supply(truth[1..], false), Supply([], true), shape, seen, true);
      assert Settle(truth[0], Supply([], true), shape, seen) == Settled([], Supply([], true), seen, true);
      assert Merge(Supply(truth, false), Supply([], true), shape, seen, noticed).events == [RowScan] + [] + later.events;
      assert [RowScan] + [] == [RowScan];
      hide Merge, SuspectKeys;
      SilentFirst(later.events);
    }
  }

  lemma {:induction false} SilentFirst(log: seq<Event>)
    requires SuspectKeys(log) == []
    ensures SuspectKeys([RowScan] + log) == []
  {
    if log == [] {
      assert [RowScan] + log == [RowScan] && [RowScan][..0] == [];
    } else {
      var n := |log| - 1;
      assert ([RowScan] + log)[..n + 1] == [RowScan] + log[..n];
      SilentFirst(log[..n]);
    }
  }

  /** A failing query finds nothing suspect.  On the side of truth it ends the scan with an error, on the side of
      target only if truth delivers a row. */
  lemma BrokenScan(keys: seq<Key>, w: World, shape: TableShape)
    requires Sees(w, shape) && keys != [] && Breaks(w)
    ensures (forall r :: r in w.truth ==> shape.nPk <= |r|) && SuspectKeys(ScanKeys(keys, w, shape).events) == []
    ensures ScanKeys(keys, w, shape).result == NoError
      <==> !w.truthFault.QueryFails? && Delivered(w.truth, keys, shape, w.truthFault) == []
  {
    LookupOrdered(w.truth, keys, shape, w.truthFault);
    LookupOrdered(w.target, keys, shape, w.targetFault);
    if !w.truthFault.QueryFails? {
      SilentTarget(Delivered(w.truth, keys, shape, w.truthFault), shape, {}, false);
    }
  }

  // ---- Which keys an interrupted scan finds suspect ----

  lemma {:induction false} PrefixTable(rows: seq<Row>, n: nat, m: nat, k: Key)
    requires SortedRows(rows, n) && m <= |rows|
    ensures k in TableOf(rows[..m], n) ==> k in TableOf(rows, n) && TableOf(rows, n)[k] == TableOf(rows[..m], n)[k]
  {
    if m > 0 {
      assert rows[..m][1..] == rows[1..][..m - 1];
      PrefixTable(rows[1..], n, m - 1, k);
      KeyNotAfter(rows, n, rows[0][..n]);
    }
  }

  lemma DeliveredTable(table: seq<Row>, keys: seq<Key>, shape: TableShape, fault: LookupFault, k: Key)
    requires Ordered(table, shape)
    ensures (forall r :: r in table ==> shape.nPk <= |r|) && Ordered(Delivered(table, keys, shape, fault), shape)
    ensures var t, d := TableOf(table, shape.nPk), TableOf(Delivered(table, keys, shape, fault), shape.nPk);
      k in d ==> k in keys && k in t && d[k] == t[k]
  {
    LookupOrdered(table, keys, shape, fault);
    var found := RowsOfKeys(table, keys, shape.nPk);
    RowsOfKeysTable(table, keys, shape.nPk, k);
    if keys != [] && fault.CutShort? && fault.after < |found| {
      PrefixTable(found, shape.nPk, fault.after, k);
    } else {
      PrefixTable(found, shape.nPk, 0, k);
    }
  }

  /** The side has a row of key k and does not deliver it. */
  ghost predicate Lost(table: seq<Row>, keys: seq<Key>, shape: TableShape, fault: LookupFault, k: Key)
    requires Ordered(table, shape)
  {
    DeliveredTable(table, keys, shape, fault, k);
    k in TableOf(table, shape.nPk) && k !in TableOf(Delivered(table, keys, shape, fault), shape.nPk)
  }

  /** The scan compares what the two sides deliver. */
  lemma ScanFinds(keys: seq<Key>, w: World, shape: TableShape, k: Key)
    requires Sees(w, shape) && keys != [] && !Breaks(w)
    ensures ScanKeys(keys, w, shape).result == NoError
    ensures (forall r :: r in w.truth ==> shape.nPk <= |r|) && forall r :: r in w.target ==> shape.nPk <= |r|
    ensures var truth, target := Delivered(w.truth, keys, shape, w.truthFault), Delivered(w.target, keys, shape, w.targetFault);
      && Fits(truth, shape) && Fits(target, shape)
      && var d := DiffTables(TableOf(truth, shape.nPk), TableOf(target, shape.nPk), shape);
        k in SuspectKeys(ScanKeys(keys, w, shape).events) <==> k in d && SuspectFinding(d[k])
  {
    DeliveredTable(w.truth, keys, shape, w.truthFault, k);
    DeliveredTable(w.target, keys, shape, w.targetFault, k);
    var truth, target := Delivered(w.truth, keys, shape, w.truthFault), Delivered(w.target, keys, shape, w.targetFault);
    MergeIsDiff(truth, target, shape, {}, false);
    var d := DiffTables(TableOf(truth, shape.nPk), TableOf(target, shape.nPk), shape);
    hide Findings, SuspectKeys, TableOf, Ordered;
    SuspectMeansFinding(ScanKeys(keys, w, shape).events, d, k);
  }

  /** A scan judges a key rightly exactly if neither side has lost its row, or both tables have a row of that key and
      either one side has lost it and the rows differ, or both sides have lost it and the rows agree. */
  lemma CutShortSuspects(keys: seq<Key>, w: World, shape: TableShape, k: Key)
    requires Sees(w, shape) && !Breaks(w) && k in keys
    ensures var truth, target := TableOf(w.truth, shape.nPk), TableOf(w.target, shape.nPk);
      var lost, lost' := Lost(w.truth, keys, shape, w.truthFault, k), Lost(w.target, keys, shape, w.targetFault, k);
      (k in SuspectKeys(ScanKeys(keys, w, shape).events) <==> Inconsistent(w, shape, k)) <==>
        || (!lost && !lost')
        || (k in truth && k in target && SuspectFinding(Classify(truth[k], target[k], shape)) == (lost != lost'))
  {
    ScanFinds(keys, w, shape, k);
    DeliveredTable(w.truth, keys, shape, w.truthFault, k);
    DeliveredTable(w.target, keys, shape, w.targetFault, k);
    hide Classify, TableOf, ScanKeys, SuspectKeys;
  }

  const ONE: Key := [DInt(1)]

  /** Both tables have the same single row; the target's lookup breaks off before it.  The scan ends without an error
      and calls the row missing. */
  lemma CutShortMisreports(compare: Comparator)
    ensures var shape, w := TableShape(1, 1, compare), World([ONE], [ONE], NoFault, CutShort(0));
      && Sees(w, shape) && !Inconsistent(w, shape, ONE)
      && ScanKeys([ONE], w, shape).result == NoError && ONE in SuspectKeys(ScanKeys([ONE], w, shape).events)
  {
    var shape, w := TableShape(1, 1, compare), World([ONE], [ONE], NoFault, CutShort(0));
    assert ONE[..1] == ONE && [ONE][1..] == [];
    assert RowsOfKeys([ONE], [ONE], 1) == [ONE] + RowsOfKeys([], [ONE], 1) by {
      assert ONE in [ONE];
    }
    assert Columns(ONE, ONE, 1, 1, compare, Differs) == [];
    assert TableOf([], 1) == map[] && TableOf([ONE], 1) == map[ONE := ONE];
    assert Classify(ONE, ONE, shape) == Matched;
    assert Delivered(w.truth, [ONE], shape, w.truthFault) == [ONE];
    assert Delivered(w.target, [ONE], shape, w.targetFault) == [];
    hide ScanKeys, SuspectKeys, Classify, RowsOfKeys, Delivered;
    ScanFinds([ONE], w, shape, ONE);
  }

  // ---- The fate of keys, whatever the lookups do ----

  /** A scan that ends with an error has found nothing suspect; any scan finds only keys that it looked up. */
  lemma SuspectsAmongKeys(keys: seq<Key>, w: World, shape: TableShape, k: Key)
    requires Sees(w, shape) && keys != [] && k in SuspectKeys(ScanKeys(keys, w, shape).events)
    ensures k in keys && ScanKeys(keys, w, shape).result == NoError
  {
    hide ScanKeys;
    if Breaks(w) {
      BrokenScan(keys, w, shape);
    } else {
      ScanFinds(keys, w, shape, k);
      DeliveredTable(w.truth, keys, shape, w.truthFault, k);
      DeliveredTable(w.target, keys, shape, w.targetFault, k);
    }
  }

  /** A key that a scan finds suspect was found suspect by all scans of the batch before. */
  lemma {:induction false} SuspectAllAlong(st: State, settings: Settings, shape: TableShape, i: nat, k: Key, h: nat)
    requires Inv(st, settings, shape) && i < |st.trace| && k in SuspectKeys(st.trace[i].events)
    requires h < |st.trace| && st.trace[h].item == st.trace[i].item && st.trace[h].attempt <= st.trace[i].attempt
    ensures st.trace[h].result == NoError && k in SuspectKeys(st.trace[h].events)
    decreases st.trace[i].attempt
  {
    var r := st.trace[i];
    TraceSees(st, settings, shape);
    SuspectsAmongKeys(r.keys, r.world, shape, k);
    if h != i {
      AttemptsDiffer(st, settings, shape, h, i);
      assert ScanFits(st.trace[h], settings, shape);
      var j := ScanBefore(st, settings, shape, i);
      hide Inv, ScanKeys, Sees, ScanFits;
      SuspectAllAlong(st, settings, shape, j, k, h);
    }
  }

  lemma AttemptsDiffer(st: State, settings: Settings, shape: TableShape, h: nat, i: nat)
    requires Inv(st, settings, shape) && h < |st.trace| && i < |st.trace| && h != i && st.trace[h].item == st.trace[i].item
    ensures st.trace[h].attempt != st.trace[i].attempt
  {
    hide ScanFits, Carries, PendingFits, Done, Received;
    if h < i {
      assert st.trace[h].attempt < st.trace[i].attempt;
    } else {
      assert st.trace[i].attempt < st.trace[h].attempt;
    }
  }

  /** With a bound on the retries, and whatever the lookups do: a key of a batch that is done with was reported exactly
      if every scan of the batch found it suspect and none ended with an error. */
  lemma ReportedIfSuspect(st: State, settings: Settings, shape: TableShape, x: nat, k: Key)
    requires Inv(st, settings, shape) && settings.maxRetries > 0 && x < |st.inserted| && x !in st.pending
    ensures (exists i :: 0 <= i < |st.trace| && st.trace[i].item == x && LiveRetries.Reports(st.trace, i, settings, k)) <==>
      forall i :: 0 <= i < |st.trace| && st.trace[i].item == x ==>
        st.trace[i].result == NoError && k in SuspectKeys(st.trace[i].events)
  {
    hide ScanKeys, Sees, PendingFits;
    TraceSees(st, settings, shape);
    assert Done(st.trace, x, settings);
    var last :| 0 <= last < |st.trace| && st.trace[last].item == x && Settles(st.trace[last], settings)
      && Unscanned(st.trace, x, st.trace[last].attempt + 1);
    hide Inv;
    ForwardedSuspects(st.trace[last].events, Continues(settings, st.trace[last].attempt));
    if i :| 0 <= i < |st.trace| && st.trace[i].item == x && LiveRetries.Reports(st.trace, i, settings, k) {
      ForwardedSuspects(st.trace[i].events, Continues(settings, st.trace[i].attempt));
      forall h | 0 <= h < |st.trace| && st.trace[h].item == x
        ensures st.trace[h].result == NoError && k in SuspectKeys(st.trace[h].events)
      {
        assert ScanFits(st.trace[h], settings, shape) && ScanFits(st.trace[i], settings, shape);
        SuspectAllAlong(st, settings, shape, i, k, h);
      }
    }
  }

  /** When the query for truth fails the batch is dropped and nothing of it reported. */
  lemma ErrorDropsBatch(st: State, x: nat, w: World, settings: Settings, shape: TableShape)
    requires x in st.pending && Sees(w, shape) && w.truthFault.QueryFails?
    ensures var after := Worked(st, x, w, settings, shape);
      after.inserted == st.inserted && after.pending == st.pending - {x} && after.received == st.received
  {
    LookupOrdered(w.target, st.pending[x].keys, shape, w.targetFault);
    assert ScanKeys(st.pending[x].keys, w, shape) == Merged([], TruthError);
    hide ScanKeys;
    assert Forwarded([], Continues(settings, st.pending[x].attempt)) == [];
  }

  /** So a key on which the tables disagree all the time can stay unreported. */
  lemma ErrorDropsKey(compare: Comparator, settings: Settings)
    ensures var shape, w := TableShape(1, 1, compare), World([ONE], [], QueryFails, NoFault);
      var st := Worked(Inserted(START, [ONE]), 0, w, settings, shape);
      && Sees(w, shape) && Inconsistent(w, shape, ONE)
      && st.inserted == [[ONE]] && st.pending == map[] && st.received == []
  {
    var shape, w := TableShape(1, 1, compare), World([ONE], [], QueryFails, NoFault);
    OneMissing(compare);
    var st := Inserted(START, [ONE]);
    assert st.pending == map[0 := Pending(1, [ONE])];
    hide Sees, Inconsistent, Worked;
    ErrorDropsBatch(st, 0, w, settings, shape);
    assert st.pending - {0} == map[];
  }

  lemma OneMissing(compare: Comparator)
    ensures var shape, w := TableShape(1, 1, compare), World([ONE], [], QueryFails, NoFault);
      Sees(w, shape) && Inconsistent(w, shape, ONE)
  {
    assert ONE[..1] == ONE && [ONE][1..] == [];
    assert TableOf([ONE], 1) == map[ONE := ONE];
  }
}

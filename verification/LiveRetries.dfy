/** Live reverification, abstractly: what becomes of every batch of suspect keys. */
module LiveRetries {
  import opened Keys
  import opened Retries
  import opened PointLookups
  import opened RowEvents
  import opened RowVerify
  import opened Diff

  /** The two tables, and what goes wrong with their lookups, at the moment of one scan. */
  datatype World = World(truth: seq<Row>, target: seq<Row>, truthFault: LookupFault, targetFault: LookupFault)

  ghost predicate Sees(w: World, shape: TableShape) {
    Ordered(w.truth, shape) && Ordered(w.target, shape)
  }

  predicate Answers(w: World) {
    w.truthFault.NoFault? && w.targetFault.NoFault?
  }

  lemma LookupOrdered(table: seq<Row>, keys: seq<Key>, shape: TableShape, fault: LookupFault)
    requires Ordered(table, shape)
    ensures (forall r :: r in table ==> shape.nPk <= |r|) && Ordered(RowsOfKeys(table, keys, shape.nPk), shape)
    ensures Fits(LookupSupply(table, keys, shape.nPk, fault).rows, shape)
  {
    RowsOfKeysSorted(table, keys, shape.nPk);
    var found := RowsOfKeys(table, keys, shape.nPk);
    forall i | 0 <= i < |found|
      ensures |found[i]| == shape.width
    {
      RowsOfKeysMember(table, keys, shape.nPk, found[i]);
    }
  }

  /** The outcome of one scan of some keys. */
  ghost function ScanKeys(keys: seq<Key>, w: World, shape: TableShape): Merged
    requires Sees(w, shape)
  {
    LookupOrdered(w.truth, keys, shape, w.truthFault);
    LookupOrdered(w.target, keys, shape, w.targetFault);
    Merge(LookupSupply(w.truth, keys, shape.nPk, w.truthFault), LookupSupply(w.target, keys, shape.nPk, w.targetFault), shape, {}, false)
  }

  // ---- Which keys a scan finds suspect ----

  predicate SuspectFinding(f: Finding) {
    !f.Matched? && !f.Conditional?
  }

  /** The two tables disagree about a key. */
  ghost predicate Inconsistent(w: World, shape: TableShape, k: Key)
    requires Sees(w, shape)
  {
    var d := DiffTables(TableOf(w.truth, shape.nPk), TableOf(w.target, shape.nPk), shape);
    k in d && SuspectFinding(d[k])
  }

  lemma {:induction false} RowsOfKeysTable(table: seq<Row>, keys: seq<Key>, n: nat, k: Key)
    requires SortedRows(table, n)
    ensures (forall r :: r in table ==> n <= |r|) && SortedRows(RowsOfKeys(table, keys, n), n)
    ensures k in TableOf(RowsOfKeys(table, keys, n), n) <==> k in TableOf(table, n) && k in keys
    ensures k in TableOf(RowsOfKeys(table, keys, n), n) ==> TableOf(RowsOfKeys(table, keys, n), n)[k] == TableOf(table, n)[k]
  {
    RowsOfKeysSorted(table, keys, n);
    if table != [] {
      var rest := RowsOfKeys(table[1..], keys, n);
      RowsOfKeysTable(table[1..], keys, n, k);
      if table[0][..n] in keys {
        assert RowsOfKeys(table, keys, n) == [table[0]] + rest && ([table[0]] + rest)[1..] == rest;
      } else {
        assert RowsOfKeys(table, keys, n) == rest;
        KeyNotAfter(table, n, table[0][..n]);
      }
    }
  }

  lemma {:induction false} SuspectAt(log: seq<Event>, k: Key)
    ensures k in SuspectKeys(log) <==> exists i :: 0 <= i < |log| && Suspect(log[i]) && log[i].key == k
  {
    if log != [] {
      var n := |log| - 1;
      SuspectAt(log[..n], k);
      assert forall i :: 0 <= i < n ==> log[..n][i] == log[i];
    }
  }

  lemma {:induction false} FindingAt(log: seq<Event>, i: nat)
    requires i < |log| && !log[i].RowScan?
    ensures FindingOf(log[i]) in Findings(log)
  {
    if i > 0 {
      FindingAt(log[1..], i - 1);
    }
  }

  lemma {:induction false} FindingFrom(log: seq<Event>, x: (Key, Finding)) returns (i: nat)
    requires x in Findings(log)
    ensures i < |log| && !log[i].RowScan? && FindingOf(log[i]) == x
  {
    if x in FindingIn(log[0]) {
      i := 0;
    } else {
      i := FindingFrom(log[1..], x);
      i := i + 1;
    }
  }

  lemma SuspectMeansFinding(log: seq<Event>, d: map<Key, Finding>, k: Key)
    requires Findings(log) == multiset(d.Items)
    ensures k in SuspectKeys(log) <==> k in d && SuspectFinding(d[k])
  {
    hide Findings, SuspectKeys;
    if k in SuspectKeys(log) {
      SuspectInItems(log, d, k);
    }
    if k in d && SuspectFinding(d[k]) {
      ItemIsSuspect(log, d, k);
    }
  }

  lemma SuspectInItems(log: seq<Event>, d: map<Key, Finding>, k: Key)
    requires Findings(log) == multiset(d.Items) && k in SuspectKeys(log)
    ensures k in d && SuspectFinding(d[k])
  {
    hide Findings;
    SuspectAt(log, k);
    var i :| 0 <= i < |log| && Suspect(log[i]) && log[i].key == k;
    FindingAt(log, i);
    var x := FindingOf(log[i]);
    assert x in multiset(d.Items);
    assert x in d.Items;
  }

  lemma ItemIsSuspect(log: seq<Event>, d: map<Key, Finding>, k: Key)
    requires Findings(log) == multiset(d.Items) && k in d && SuspectFinding(d[k])
    ensures k in SuspectKeys(log)
  {
    hide Findings;
    SuspectAt(log, k);
    assert (k, d[k]) in d.Items;
    var i := FindingFrom(log, (k, d[k]));
  }

  /** A scan that both sides answer compares the rows found. */
  lemma AnsweredFindings(keys: seq<Key>, w: World, shape: TableShape)
    requires Sees(w, shape) && Answers(w) && keys != []
    ensures (forall r :: r in w.truth ==> shape.nPk <= |r|) && forall r :: r in w.target ==> shape.nPk <= |r|
    ensures var truth, target, m := RowsOfKeys(w.truth, keys, shape.nPk), RowsOfKeys(w.target, keys, shape.nPk), ScanKeys(keys, w, shape);
      && Ordered(truth, shape) && Ordered(target, shape)
      && m.result == NoError && Findings(m.events) == DiffRows(truth, target, shape)
  {
    LookupOrdered(w.truth, keys, shape, w.truthFault);
    LookupOrdered(w.target, keys, shape, w.targetFault);
    hide Merge, Ordered, Fits, Findings, DiffRows, RowsOfKeys;
    MergeIsDiff(RowsOfKeys(w.truth, keys, shape.nPk), RowsOfKeys(w.target, keys, shape.nPk), shape, {}, false);
  }

  /** It finds exactly those of its keys suspect on which the tables disagree. */
  lemma ScanSuspects(keys: seq<Key>, w: World, shape: TableShape, k: Key)
    requires Sees(w, shape) && Answers(w) && keys != []
    ensures ScanKeys(keys, w, shape).result == NoError
    ensures k in SuspectKeys(ScanKeys(keys, w, shape).events) <==> k in keys && Inconsistent(w, shape, k)
  {
    AnsweredFindings(keys, w, shape);
    FoundDiffer(keys, w, shape, k);
    hide Findings, SuspectKeys, ScanKeys, TableOf, RowsOfKeys, DiffTables, Ordered, Inconsistent;
    SuspectMeansFinding(ScanKeys(keys, w, shape).events, FoundDiff(keys, w, shape), k);
  }

  /** The difference of the rows found. */
  ghost function FoundDiff(keys: seq<Key>, w: World, shape: TableShape): map<Key, Finding>
    requires Sees(w, shape)
  {
    LookupOrdered(w.truth, keys, shape, NoFault);
    LookupOrdered(w.target, keys, shape, NoFault);
    DiffTables(TableOf(RowsOfKeys(w.truth, keys, shape.nPk), shape.nPk), TableOf(RowsOfKeys(w.target, keys, shape.nPk), shape.nPk), shape)
  }

  lemma JudgedAlike(truth: Table, target: Table, foundTruth: Table, foundTarget: Table, keys: seq<Key>, shape: TableShape, k: Key)
    requires k in foundTruth <==> k in truth && k in keys
    requires k in foundTarget <==> k in target && k in keys
    requires k in foundTruth ==> foundTruth[k] == truth[k]
    requires k in foundTarget ==> foundTarget[k] == target[k]
    ensures var d, found := DiffTables(truth, target, shape), DiffTables(foundTruth, foundTarget, shape);
      k in found && SuspectFinding(found[k]) <==> k in keys && k in d && SuspectFinding(d[k])
  {
    hide Classify;
  }

  lemma FoundDiffer(keys: seq<Key>, w: World, shape: TableShape, k: Key)
    requires Sees(w, shape)
    ensures var d := FoundDiff(keys, w, shape); k in d && SuspectFinding(d[k]) <==> k in keys && Inconsistent(w, shape, k)
  {
    var n := shape.nPk;
    hide TableOf, RowsOfKeys, DiffTables, SuspectFinding;
    RowsOfKeysTable(w.truth, keys, n, k);
    RowsOfKeysTable(w.target, keys, n, k);
    JudgedAlike(TableOf(w.truth, n), TableOf(w.target, n),
      TableOf(RowsOfKeys(w.truth, keys, n), n), TableOf(RowsOfKeys(w.target, keys, n), n), keys, shape, k);
  }

  // ---- The state machine ----

  /** A batch that waits for scan number attempt. */
  datatype Pending = Pending(attempt: nat, keys: seq<Key>)

  datatype Scan = Scan(item: nat, attempt: nat, keys: seq<Key>, world: World, events: seq<Event>, result: VerifyResult)

  /** The batches pushed so far, those still waiting, all scans in order, and what the base listener has received. */
  datatype State = State(inserted: seq<seq<Key>>, pending: map<nat, Pending>, trace: seq<Scan>, received: seq<Event>)

  function Inserted(st: State, keys: seq<Key>): State {
    st.(inserted := st.inserted + [keys], pending := st.pending[|st.inserted| := Pending(1, keys)])
  }

  function CarriedKeys(events: seq<Event>, continues: bool): seq<Key> {
    if continues then SuspectKeys(events) else []
  }

  ghost function ScanOf(st: State, x: nat, w: World, shape: TableShape): Scan
    requires x in st.pending && Sees(w, shape)
  {
    var p := st.pending[x];
    var m := ScanKeys(p.keys, w, shape);
    Scan.Scan(x, p.attempt, p.keys, w, m.events, m.result)
  }

  /** One scan of a waiting batch: it is pushed again if the scan was completed and left suspect keys to carry. */
  ghost function Worked(st: State, x: nat, w: World, settings: Settings, shape: TableShape): State
    requires x in st.pending && Sees(w, shape)
  {
    var scan := ScanOf(st, x, w, shape);
    var continues := Continues(settings, scan.attempt);
    var carried := CarriedKeys(scan.events, continues);
    State(st.inserted,
      if scan.result.NoError? && carried != [] then st.pending[x := Pending(scan.attempt + 1, carried)] else st.pending - {x},
      st.trace + [scan],
      st.received + Forwarded(scan.events, continues))
  }

  // ---- What every run keeps ----

  ghost predicate ScanFits(r: Scan, settings: Settings, shape: TableShape) {
    && r.attempt >= 1 && r.keys != [] && (settings.maxRetries > 0 ==> r.attempt <= settings.maxRetries)
    && Sees(r.world, shape)
    && var m := ScanKeys(r.keys, r.world, shape); r.events == m.events && r.result == m.result
  }

  predicate IsScan(r: Scan, x: nat, attempt: int) {
    r.item == x && r.attempt == attempt && r.result.NoError?
  }

  /** Where the keys of a scan come from: the batch itself, or all suspects of the scan before. */
  ghost predicate Carries(trace: seq<Scan>, inserted: seq<seq<Key>>, x: nat, attempt: nat, keys: seq<Key>)
    requires x < |inserted|
  {
    if attempt == 1 then keys == inserted[x]
    else exists j :: 0 <= j < |trace| && IsScan(trace[j], x, attempt - 1) && keys == SuspectKeys(trace[j].events)
  }

  ghost predicate Unscanned(trace: seq<Scan>, x: nat, attempt: nat) {
    forall i :: 0 <= i < |trace| && trace[i].item == x ==> trace[i].attempt < attempt
  }

  ghost predicate Settles(r: Scan, settings: Settings) {
    !r.result.NoError? || SuspectKeys(r.events) == [] || !Continues(settings, r.attempt)
  }

  /** The batch is done with: its last scan failed, found nothing suspect, or was the last allowed. */
  ghost predicate Done(trace: seq<Scan>, x: nat, settings: Settings) {
    exists i :: 0 <= i < |trace| && trace[i].item == x && Settles(trace[i], settings) && Unscanned(trace, x, trace[i].attempt + 1)
  }

  ghost predicate PendingFits(p: Pending, x: nat, trace: seq<Scan>, inserted: seq<seq<Key>>, settings: Settings) {
    && x < |inserted| && p.attempt >= 1 && p.keys != [] && (settings.maxRetries > 0 ==> p.attempt <= settings.maxRetries)
    && Unscanned(trace, x, p.attempt) && Carries(trace, inserted, x, p.attempt, p.keys)
  }

  ghost predicate TraceFits(trace: seq<Scan>, inserted: seq<seq<Key>>, settings: Settings, shape: TableShape) {
    && (forall i :: 0 <= i < |trace| ==> ScanFits(trace[i], settings, shape) && trace[i].item < |inserted|)
    && (forall i :: 0 <= i < |trace| ==> Carries(trace[..i], inserted, trace[i].item, trace[i].attempt, trace[i].keys))
    && (forall i, j :: 0 <= i < j < |trace| && trace[i].item == trace[j].item ==> trace[i].attempt < trace[j].attempt)
  }

  /** All that the base listener has received, scan by scan. */
  function Received(trace: seq<Scan>, settings: Settings): seq<Event> {
    if trace == [] then []
    else
      var r := trace[|trace| - 1];
      Received(trace[..|trace| - 1], settings) + Forwarded(r.events, Continues(settings, r.attempt))
  }

  ghost predicate Inv(st: State, settings: Settings, shape: TableShape) {
    && TraceFits(st.trace, st.inserted, settings, shape)
    && (forall x :: x in st.pending ==> PendingFits(st.pending[x], x, st.trace, st.inserted, settings))
    && (forall x: nat :: x < |st.inserted| && x !in st.pending ==> Done(st.trace, x, settings))
    && (forall x :: 0 <= x < |st.inserted| ==> st.inserted[x] != [])
    && st.received == Received(st.trace, settings)
  }

  const START := State([], map[], [], [])

  lemma StartKeeps(settings: Settings, shape: TableShape)
    ensures Inv(START, settings, shape)
  {
  }

  lemma CarriesGrow(trace: seq<Scan>, inserted: seq<seq<Key>>, more: seq<seq<Key>>, x: nat, attempt: nat, keys: seq<Key>)
    requires x < |inserted| && Carries(trace, inserted, x, attempt, keys)
    ensures Carries(trace, inserted + more, x, attempt, keys)
  {
  }

  lemma InsertKeeps(st: State, keys: seq<Key>, settings: Settings, shape: TableShape)
    requires Inv(st, settings, shape) && keys != []
    ensures Inv(Inserted(st, keys), settings, shape)
  {
    var after, n := Inserted(st, keys), |st.inserted|;
    hide ScanFits, Carries, Done, Received;
    forall i | 0 <= i < |st.trace|
      ensures Carries(st.trace[..i], after.inserted, st.trace[i].item, st.trace[i].attempt, st.trace[i].keys)
    {
      CarriesGrow(st.trace[..i], st.inserted, [keys], st.trace[i].item, st.trace[i].attempt, st.trace[i].keys);
    }
    forall x | x in after.pending
      ensures PendingFits(after.pending[x], x, st.trace, after.inserted, settings)
    {
      if x == n {
        FirstCarries(st.trace, after.inserted, n, keys);
      } else {
        assert PendingFits(st.pending[x], x, st.trace, st.inserted, settings);
        CarriesGrow(st.trace, st.inserted, [keys], x, st.pending[x].attempt, st.pending[x].keys);
      }
    }
  }

  lemma FirstCarries(trace: seq<Scan>, inserted: seq<seq<Key>>, x: nat, keys: seq<Key>)
    requires x < |inserted| && inserted[x] == keys
    ensures Carries(trace, inserted, x, 1, keys)
  {
  }

  lemma CarriesSnoc(trace: seq<Scan>, r: Scan, inserted: seq<seq<Key>>, x: nat, attempt: nat, keys: seq<Key>)
    requires x < |inserted| && Carries(trace, inserted, x, attempt, keys)
    ensures Carries(trace + [r], inserted, x, attempt, keys)
  {
    if attempt != 1 {
      var j :| 0 <= j < |trace| && IsScan(trace[j], x, attempt - 1) && keys == SuspectKeys(trace[j].events);
      assert (trace + [r])[j] == trace[j];
    }
  }

  lemma CarriesNext(trace: seq<Scan>, r: Scan, inserted: seq<seq<Key>>)
    requires r.item < |inserted| && r.result.NoError? && r.attempt >= 1
    ensures Carries(trace + [r], inserted, r.item, r.attempt + 1, SuspectKeys(r.events))
  {
    var all := trace + [r];
    assert all[|trace|] == r && IsScan(all[|trace|], r.item, r.attempt);
  }

  lemma DoneSnoc(trace: seq<Scan>, r: Scan, x: nat, settings: Settings)
    requires Done(trace, x, settings) && r.item != x
    ensures Done(trace + [r], x, settings)
  {
    var i :| 0 <= i < |trace| && trace[i].item == x && Settles(trace[i], settings) && Unscanned(trace, x, trace[i].attempt + 1);
    assert (trace + [r])[i] == trace[i];
  }

  lemma DoneNow(trace: seq<Scan>, r: Scan, settings: Settings)
    requires Unscanned(trace, r.item, r.attempt) && Settles(r, settings)
    ensures Done(trace + [r], r.item, settings)
  {
    assert (trace + [r])[|trace|] == r;
  }

  lemma TraceSnoc(trace: seq<Scan>, r: Scan, inserted: seq<seq<Key>>, settings: Settings, shape: TableShape)
    requires TraceFits(trace, inserted, settings, shape) && ScanFits(r, settings, shape) && r.item < |inserted|
    requires Unscanned(trace, r.item, r.attempt) && Carries(trace, inserted, r.item, r.attempt, r.keys)
    ensures TraceFits(trace + [r], inserted, settings, shape)
  {
    hide ScanFits, Carries;
    var after := trace + [r];
    forall i | 0 <= i < |after|
      ensures after[i].item < |inserted| && Carries(after[..i], inserted, after[i].item, after[i].attempt, after[i].keys)
    {
      if i < |trace| {
        assert after[..i] == trace[..i];
      } else {
        assert after[..i] == trace;
      }
    }
  }

  lemma PushedAgain(p: Pending, r: Scan, trace: seq<Scan>, inserted: seq<seq<Key>>, settings: Settings)
    requires PendingFits(p, r.item, trace, inserted, settings) && r.attempt == p.attempt && r.result.NoError?
    requires Continues(settings, p.attempt) && SuspectKeys(r.events) != []
    ensures PendingFits(Pending(p.attempt + 1, SuspectKeys(r.events)), r.item, trace + [r], inserted, settings)
  {
    hide Carries;
    CarriesNext(trace, r, inserted);
  }

  lemma StillWaits(p: Pending, y: nat, r: Scan, trace: seq<Scan>, inserted: seq<seq<Key>>, settings: Settings)
    requires PendingFits(p, y, trace, inserted, settings) && r.item != y
    ensures PendingFits(p, y, trace + [r], inserted, settings)
  {
    hide Carries;
    CarriesSnoc(trace, r, inserted, y, p.attempt, p.keys);
  }

  lemma ScanOfFits(st: State, x: nat, w: World, settings: Settings, shape: TableShape)
    requires Inv(st, settings, shape) && x in st.pending && Sees(w, shape)
    ensures ScanFits(ScanOf(st, x, w, shape), settings, shape)
    ensures PendingFits(st.pending[x], x, st.trace, st.inserted, settings)
  {
    hide TraceFits, Carries, Done;
  }

  lemma WorkPending(st: State, x: nat, w: World, settings: Settings, shape: TableShape, y: nat)
    requires Inv(st, settings, shape) && x in st.pending && Sees(w, shape)
    requires y in Worked(st, x, w, settings, shape).pending
    ensures var after := Worked(st, x, w, settings, shape);
      PendingFits(after.pending[y], y, after.trace, after.inserted, settings)
  {
    var r := ScanOf(st, x, w, shape);
    ScanOfFits(st, x, w, settings, shape);
    if y == x {
      hide Inv, PendingFits, ScanKeys;
      PushedAgain(st.pending[x], r, st.trace, st.inserted, settings);
    } else {
      assert PendingFits(st.pending[y], y, st.trace, st.inserted, settings);
      hide Inv, PendingFits, ScanKeys;
      StillWaits(st.pending[y], y, r, st.trace, st.inserted, settings);
    }
  }

  lemma WorkDone(st: State, x: nat, w: World, settings: Settings, shape: TableShape, y: nat)
    requires Inv(st, settings, shape) && x in st.pending && Sees(w, shape)
    requires y < |st.inserted| && y !in Worked(st, x, w, settings, shape).pending
    ensures Done(Worked(st, x, w, settings, shape).trace, y, settings)
  {
    var r := ScanOf(st, x, w, shape);
    ScanOfFits(st, x, w, settings, shape);
    if y == x {
      assert Unscanned(st.trace, r.item, r.attempt);
      hide Inv, Done, Settles, ScanKeys;
      SettlesNow(r, settings);
      DoneNow(st.trace, r, settings);
    } else {
      assert Done(st.trace, y, settings);
      hide Inv, Done;
      DoneSnoc(st.trace, r, y, settings);
    }
  }

  lemma WorkTrace(st: State, x: nat, w: World, settings: Settings, shape: TableShape)
    requires Inv(st, settings, shape) && x in st.pending && Sees(w, shape)
    ensures var after := Worked(st, x, w, settings, shape);
      TraceFits(after.trace, after.inserted, settings, shape) && after.received == Received(after.trace, settings)
  {
    var after, r := Worked(st, x, w, settings, shape), ScanOf(st, x, w, shape);
    ScanOfFits(st, x, w, settings, shape);
    assert Unscanned(st.trace, r.item, r.attempt) && Carries(st.trace, st.inserted, r.item, r.attempt, r.keys);
    hide Carries, ScanFits, Sees, ScanKeys, Unscanned, TraceFits;
    TraceSnoc(st.trace, r, st.inserted, settings, shape);
    assert after.trace[..|st.trace|] == st.trace;
  }

  /** Every scan keeps the invariant, whatever it meets. */
  lemma WorkKeeps(st: State, x: nat, w: World, settings: Settings, shape: TableShape)
    requires Inv(st, settings, shape) && x in st.pending && Sees(w, shape)
    ensures Inv(Worked(st, x, w, settings, shape), settings, shape)
  {
    var after := Worked(st, x, w, settings, shape);
    hide TraceFits, PendingFits, Done, ScanKeys, Sees, Received;
    WorkTrace(st, x, w, settings, shape);
    forall y | y in after.pending
      ensures PendingFits(after.pending[y], y, after.trace, after.inserted, settings)
    {
      WorkPending(st, x, w, settings, shape, y);
    }
    forall y: nat | y < |after.inserted| && y !in after.pending
      ensures Done(after.trace, y, settings)
    {
      WorkDone(st, x, w, settings, shape, y);
    }
  }

  lemma SettlesNow(r: Scan, settings: Settings)
    requires !(r.result.NoError? && Continues(settings, r.attempt) && SuspectKeys(r.events) != [])
    ensures Settles(r, settings)
  {
  }

  // ---- The fate of every key ----

  function ScanCount(trace: seq<Scan>, x: nat): nat {
    if trace == [] then 0
    else ScanCount(trace[..|trace| - 1], x) + if trace[|trace| - 1].item == x then 1 else 0
  }

  lemma {:induction false} AttemptsCount(trace: seq<Scan>, x: nat, top: nat)
    requires forall i, j :: 0 <= i < j < |trace| && trace[i].item == trace[j].item ==> trace[i].attempt < trace[j].attempt
    requires forall i :: 0 <= i < |trace| ==> trace[i].attempt >= 1
    requires forall i :: 0 <= i < |trace| && trace[i].item == x ==> trace[i].attempt <= top
    ensures ScanCount(trace, x) <= top
  {
    if trace != [] {
      var n := |trace| - 1;
      AttemptsCount(trace[..n], x, if trace[n].item == x then trace[n].attempt - 1 else top);
    }
  }

  /** With a bound on the retries no batch is scanned more often than that. */
  lemma ScannedAtMost(st: State, settings: Settings, shape: TableShape, x: nat)
    requires Inv(st, settings, shape) && settings.maxRetries > 0
    ensures ScanCount(st.trace, x) <= settings.maxRetries
  {
    assert forall i :: 0 <= i < |st.trace| ==> ScanFits(st.trace[i], settings, shape);
    AttemptsCount(st.trace, x, settings.maxRetries);
  }

  /** Both lookups of every scan of the batch were answered in full. */
  ghost predicate AllAnswered(trace: seq<Scan>, x: nat) {
    forall i :: 0 <= i < |trace| && trace[i].item == x ==> Answers(trace[i].world)
  }

  /** A key was found inconsistent in all scans of its batch up to number attempt. */
  ghost predicate AlwaysInconsistent(trace: seq<Scan>, x: nat, attempt: nat, shape: TableShape, k: Key)
    requires forall i :: 0 <= i < |trace| ==> Sees(trace[i].world, shape)
  {
    forall i :: 0 <= i < |trace| && trace[i].item == x && trace[i].attempt <= attempt ==> Inconsistent(trace[i].world, shape, k)
  }

  lemma TraceSees(st: State, settings: Settings, shape: TableShape)
    requires Inv(st, settings, shape)
    ensures forall i :: 0 <= i < |st.trace| ==> Sees(st.trace[i].world, shape) && ScanFits(st.trace[i], settings, shape)
  {
    hide Carries, PendingFits, Done, Received;
    assert forall i :: 0 <= i < |st.trace| ==> ScanFits(st.trace[i], settings, shape);
  }

  /** The scan before scan i of the same batch, if there is one. */
  lemma ScanBefore(st: State, settings: Settings, shape: TableShape, i: nat) returns (j: nat)
    requires Inv(st, settings, shape) && i < |st.trace| && st.trace[i].attempt > 1
    ensures j < i && st.trace[j].item == st.trace[i].item && st.trace[j].attempt == st.trace[i].attempt - 1
    ensures st.trace[i].keys == SuspectKeys(st.trace[j].events)
    ensures forall h :: 0 <= h < |st.trace| && h != i && st.trace[h].item == st.trace[i].item ==>
      st.trace[h].attempt <= st.trace[j].attempt || st.trace[h].attempt > st.trace[i].attempt
  {
    hide PendingFits, Done, Received, ScanFits;
    var r := st.trace[i];
    assert Carries(st.trace[..i], st.inserted, r.item, r.attempt, r.keys);
    j :| 0 <= j < i && IsScan(st.trace[..i][j], r.item, r.attempt - 1) && r.keys == SuspectKeys(st.trace[..i][j].events);
  }

  /** A scan finds a key of its batch suspect exactly if it and all scans before it found the tables to disagree. */
  lemma {:induction false} KeyFate(st: State, settings: Settings, shape: TableShape, i: nat, k: Key)
    requires Inv(st, settings, shape) && i < |st.trace| && AllAnswered(st.trace, st.trace[i].item)
    requires forall h :: 0 <= h < |st.trace| ==> Sees(st.trace[h].world, shape)
    ensures st.trace[i].item < |st.inserted| && st.trace[i].result == NoError
    ensures k in SuspectKeys(st.trace[i].events) <==>
      k in st.inserted[st.trace[i].item] && AlwaysInconsistent(st.trace, st.trace[i].item, st.trace[i].attempt, shape, k)
    decreases st.trace[i].attempt
  {
    var r := st.trace[i];
    assert ScanFits(r, settings, shape) && r.item < |st.inserted|;
    assert Answers(r.world);
    ScanSuspects(r.keys, r.world, shape, k);
    if r.attempt == 1 {
      assert Carries(st.trace[..i], st.inserted, r.item, r.attempt, r.keys);
      hide Inv, Inconsistent, ScanKeys;
      FirstScanOnly(st, settings, shape, i, k);
    } else {
      var j := ScanBefore(st, settings, shape, i);
      KeyFate(st, settings, shape, j, k);
      hide Inv, Inconsistent, ScanKeys, Sees;
      LaterScan(st.trace, i, j, shape, k);
    }
  }

  lemma FirstScanOnly(st: State, settings: Settings, shape: TableShape, i: nat, k: Key)
    requires Inv(st, settings, shape) && i < |st.trace| && st.trace[i].attempt == 1
    requires forall h :: 0 <= h < |st.trace| ==> Sees(st.trace[h].world, shape)
    ensures AlwaysInconsistent(st.trace, st.trace[i].item, 1, shape, k) <==> Inconsistent(st.trace[i].world, shape, k)
  {
    forall h | 0 <= h < |st.trace| && st.trace[h].item == st.trace[i].item && st.trace[h].attempt <= 1
      ensures h == i
    {
      assert ScanFits(st.trace[h], settings, shape);
    }
  }

  lemma LaterScan(trace: seq<Scan>, i: nat, j: nat, shape: TableShape, k: Key)
    requires forall h :: 0 <= h < |trace| ==> Sees(trace[h].world, shape)
    requires j < i < |trace| && trace[j].item == trace[i].item && trace[j].attempt + 1 == trace[i].attempt
    requires forall h :: 0 <= h < |trace| && h != i && trace[h].item == trace[i].item ==>
      trace[h].attempt <= trace[j].attempt || trace[h].attempt > trace[i].attempt
    ensures AlwaysInconsistent(trace, trace[i].item, trace[i].attempt, shape, k)
      <==> AlwaysInconsistent(trace, trace[i].item, trace[j].attempt, shape, k) && Inconsistent(trace[i].world, shape, k)
  {
    hide Inconsistent, Sees;
  }

  lemma {:induction false} ForwardedSuspects(log: seq<Event>, continues: bool)
    ensures SuspectKeys(Forwarded(log, continues)) == if continues then [] else SuspectKeys(log)
  {
    if log != [] {
      var n := |log| - 1;
      ForwardedSuspects(log[..n], continues);
      if !(log[n].RowScan? || (Suspect(log[n]) && continues)) {
        SuspectKeysAppend(Forwarded(log[..n], continues), log[n]);
      } else {
        assert Forwarded(log[..n], continues) + [] == Forwarded(log[..n], continues);
      }
    }
  }

  /** Scan i passed the key on to the base listener as missing, extraneous or mismatching. */
  ghost predicate Reports(trace: seq<Scan>, i: nat, settings: Settings, k: Key)
    requires i < |trace|
  {
    k in SuspectKeys(Forwarded(trace[i].events, Continues(settings, trace[i].attempt)))
  }

  /** Only the last allowed scan of a batch reports keys, and there is at most one such scan. */
  lemma OnlyLastReports(st: State, settings: Settings, shape: TableShape, i: nat, j: nat, k: Key, l: Key)
    requires Inv(st, settings, shape) && settings.maxRetries > 0 && i < |st.trace| && j < |st.trace|
    requires Reports(st.trace, i, settings, k)
    ensures st.trace[i].attempt == settings.maxRetries
    ensures Reports(st.trace, j, settings, l) && st.trace[i].item == st.trace[j].item ==> i == j
  {
    TraceSees(st, settings, shape);
    ForwardedSuspects(st.trace[i].events, Continues(settings, st.trace[i].attempt));
    ForwardedSuspects(st.trace[j].events, Continues(settings, st.trace[j].attempt));
    assert ScanFits(st.trace[i], settings, shape) && ScanFits(st.trace[j], settings, shape);
  }

  /** With a bound on the retries, and no lookup failing, a key of a batch that is done with was reported
      exactly if every single scan of the batch found the tables to disagree about it. */
  lemma ReportedIfAlways(st: State, settings: Settings, shape: TableShape, x: nat, k: Key)
    requires Inv(st, settings, shape) && settings.maxRetries > 0
    requires x < |st.inserted| && x !in st.pending && AllAnswered(st.trace, x)
    requires forall i :: 0 <= i < |st.trace| ==> Sees(st.trace[i].world, shape)
    ensures (exists i :: 0 <= i < |st.trace| && st.trace[i].item == x && Reports(st.trace, i, settings, k))
      <==> k in st.inserted[x] && forall i :: 0 <= i < |st.trace| && st.trace[i].item == x ==> Inconsistent(st.trace[i].world, shape, k)
  {
    hide Inconsistent, ScanKeys, Sees, PendingFits;
    TraceSees(st, settings, shape);
    assert Done(st.trace, x, settings);
    var last :| 0 <= last < |st.trace| && st.trace[last].item == x && Settles(st.trace[last], settings)
      && Unscanned(st.trace, x, st.trace[last].attempt + 1);
    hide Inv;
    KeyFate(st, settings, shape, last, k);
    ForwardedSuspects(st.trace[last].events, Continues(settings, st.trace[last].attempt));
    if i :| 0 <= i < |st.trace| && st.trace[i].item == x && Reports(st.trace, i, settings, k) {
      KeyFate(st, settings, shape, i, k);
      OnlyLastReports(st, settings, shape, i, i, k, k);
      ForwardedSuspects(st.trace[i].events, Continues(settings, st.trace[i].attempt));
      assert ScanFits(st.trace[last], settings, shape);
    }
  }

  lemma {:induction false} FindingTwice(log: seq<Event>, i: nat, j: nat)
    requires i < j < |log| && !log[i].RowScan? && !log[j].RowScan? && FindingOf(log[i]) == FindingOf(log[j])
    ensures Findings(log)[FindingOf(log[i])] >= 2
  {
    if i == 0 {
      FindingAt(log[1..], j - 1);
    } else {
      FindingTwice(log[1..], i - 1, j - 1);
    }
  }

  lemma {:induction false} SuspectKeysDistinct(log: seq<Event>)
    requires forall i, j :: 0 <= i < j < |log| && Suspect(log[i]) && Suspect(log[j]) ==> log[i].key != log[j].key
    ensures forall i, j :: 0 <= i < j < |SuspectKeys(log)| ==> SuspectKeys(log)[i] != SuspectKeys(log)[j]
  {
    if log != [] {
      var n := |log| - 1;
      SuspectKeysDistinct(log[..n]);
      if Suspect(log[n]) {
        SuspectAt(log[..n], log[n].key);
      }
    }
  }

  /** An answered scan reports no key twice. */
  lemma ReportedOnce(keys: seq<Key>, w: World, shape: TableShape, continues: bool)
    requires Sees(w, shape) && Answers(w) && keys != []
    ensures var reported := SuspectKeys(Forwarded(ScanKeys(keys, w, shape).events, continues));
      forall i, j :: 0 <= i < j < |reported| ==> reported[i] != reported[j]
  {
    var log := ScanKeys(keys, w, shape).events;
    AnsweredFindings(keys, w, shape);
    var d := FoundDiff(keys, w, shape);
    assert Findings(log) == multiset(d.Items);
    hide ScanKeys, Findings, DiffTables, TableOf, SuspectKeys, Forwarded;
    ItemsOnce(log, d);
    SuspectKeysDistinct(log);
    ForwardedSuspects(log, continues);
  }

  lemma ItemsOnce(log: seq<Event>, d: map<Key, Finding>)
    requires Findings(log) == multiset(d.Items)
    ensures forall i, j :: 0 <= i < j < |log| && Suspect(log[i]) && Suspect(log[j]) ==> log[i].key != log[j].key
  {
    hide Findings;
    forall i, j | 0 <= i < j < |log| && Suspect(log[i]) && Suspect(log[j])
      ensures log[i].key != log[j].key
    {
      FindingAt(log, i);
      FindingAt(log, j);
      assert FindingOf(log[i]) in d.Items && FindingOf(log[j]) in d.Items;
      if log[i].key == log[j].key {
        FindingTwice(log, i, j);
      }
    }
  }

  // ---- Termination ----

  /** How many scans the first n batches may still take. */
  function Budget(pending: map<nat, Pending>, maxRetries: nat, n: nat): nat {
    if n == 0 then 0
    else
      Budget(pending, maxRetries, n - 1)
      + if n - 1 in pending && pending[n - 1].attempt <= maxRetries then maxRetries + 1 - pending[n - 1].attempt else 0
  }

  lemma {:induction false} BudgetChange(a: map<nat, Pending>, b: map<nat, Pending>, maxRetries: nat, n: nat, x: nat)
    requires x < n && x in a && a[x].attempt <= maxRetries
    requires x in b ==> b[x].attempt == a[x].attempt + 1
    requires forall y :: y != x ==> (y in a <==> y in b) && (y in a ==> a[y] == b[y])
    ensures Budget(b, maxRetries, n) < Budget(a, maxRetries, n)
  {
    if x < n - 1 {
      BudgetChange(a, b, maxRetries, n - 1, x);
    } else {
      BudgetSame(a, b, maxRetries, n - 1);
    }
  }

  lemma {:induction false} BudgetSame(a: map<nat, Pending>, b: map<nat, Pending>, maxRetries: nat, n: nat)
    requires forall y :: 0 <= y < n ==> (y in a <==> y in b) && (y in a ==> a[y] == b[y])
    ensures Budget(b, maxRetries, n) == Budget(a, maxRetries, n)
  {
    if n > 0 {
      BudgetSame(a, b, maxRetries, n - 1);
    }
  }

  lemma WorkedPending(st: State, x: nat, w: World, settings: Settings, shape: TableShape)
    requires x in st.pending && Sees(w, shape)
    ensures var after := Worked(st, x, w, settings, shape);
      && after.inserted == st.inserted
      && (x in after.pending ==> after.pending[x].attempt == st.pending[x].attempt + 1)
      && forall y :: y != x ==> (y in st.pending <==> y in after.pending) && (y in st.pending ==> st.pending[y] == after.pending[y])
  {
    hide ScanKeys, Forwarded, CarriedKeys;
  }

  /** Every scan uses up some of the scans that are left. */
  lemma WorkUsesUp(st: State, x: nat, w: World, settings: Settings, shape: TableShape)
    requires Inv(st, settings, shape) && settings.maxRetries > 0 && x in st.pending && Sees(w, shape)
    ensures Worked(st, x, w, settings, shape).inserted == st.inserted
    ensures var after := Worked(st, x, w, settings, shape);
      Budget(after.pending, settings.maxRetries, |after.inserted|) < Budget(st.pending, settings.maxRetries, |st.inserted|)
  {
    ScanOfFits(st, x, w, settings, shape);
    WorkedPending(st, x, w, settings, shape);
    hide Inv, ScanFits, ScanKeys, Sees, Budget, Carries, Unscanned, Worked;
    BudgetChange(st.pending, Worked(st, x, w, settings, shape).pending, settings.maxRetries, |st.inserted|, x);
  }

  /** Both sides answer, and the tables agree. */
  ghost predicate Calm(w: World, shape: TableShape) {
    Sees(w, shape) && Answers(w) && forall k :: !Inconsistent(w, shape, k)
  }

  /** A batch that is scanned then is done with, bound or no bound on the retries. */
  lemma CalmSettles(st: State, x: nat, w: World, settings: Settings, shape: TableShape)
    requires Inv(st, settings, shape) && x in st.pending && Calm(w, shape)
    ensures Worked(st, x, w, settings, shape).pending == st.pending - {x}
    ensures |Worked(st, x, w, settings, shape).pending| < |st.pending|
  {
    var keys := st.pending[x].keys;
    assert PendingFits(st.pending[x], x, st.trace, st.inserted, settings);
    var suspects := SuspectKeys(ScanKeys(keys, w, shape).events);
    hide Inv, ScanKeys, SuspectKeys, Sees, Inconsistent, Forwarded;
    if suspects != [] {
      var k := suspects[0];
      assert k in suspects;
      ScanSuspects(keys, w, shape, k);
    }
    assert (st.pending - {x}).Keys == st.pending.Keys - {x};
    assert |(st.pending - {x}).Keys| < |st.pending.Keys|;
  }
}

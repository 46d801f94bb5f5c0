/** The statements of a pass one by one.  No isolation level is set, so each statement sees the helper tables as
    they are committed when it runs: its view. */
module Views {
  import opened HelperPlan
  import opened Options
  import opened Tables
  import opened Deletes
  import opened Reconcile
  import opened Seqs

  datatype Statement = Statement(phase: Phase, table: TableName)

  function InPhase(phase: Phase, tables: seq<TableName>): seq<Statement> {
    seq(|tables|, i requires 0 <= i < |tables| => Statement(phase, tables[i]))
  }

  /** All upserts in upsert order, then all deletes in delete order. */
  function StatementsOf(order: ReconcileOrder): seq<Statement> {
    InPhase(Upsert, order.upsertOrder) + InPhase(Delete, order.deleteOrder)
  }

  /** Every statement's table exists on both sides. */
  predicate Executable(db: Database, views: seq<Database>, schema: ValidatedSchema, statements: seq<Statement>) {
    && |views| == |statements| && db.Keys <= schema.Keys
    && forall i :: 0 <= i < |statements| ==> statements[i].table in db && statements[i].table in views[i]
  }

  /** What the statements make of the real tables, statement i seeing views[i]; the first failure ends it. */
  function RunAll(db: Database, views: seq<Database>, schema: ValidatedSchema, statements: seq<Statement>): (r: Applied)
    requires Executable(db, views, schema, statements)
    ensures r.Done? ==> r.db.Keys == db.Keys
  {
    if statements == [] then Done(db)
    else
      var n := |statements| - 1;
      var before := RunAll(db, views[..n], schema, statements[..n]);
      if before.Done? then ApplyStatement(before.db, views[n], schema, statements[n].phase, statements[n].table) else before
  }

  lemma RunAllSnoc(db: Database, views: seq<Database>, schema: ValidatedSchema, statements: seq<Statement>, i: nat)
    requires Executable(db, views, schema, statements) && i < |statements|
    requires RunAll(db, views[..i], schema, statements[..i]).Done?
    ensures var before, s := RunAll(db, views[..i], schema, statements[..i]).db, statements[i];
      && Runnable(before, views[i], schema, [s.table])
      && RunAll(db, views[..i + 1], schema, statements[..i + 1]) == ApplyStatement(before, views[i], schema, s.phase, s.table)
      && (RunAll(db, views[..i + 1], schema, statements[..i + 1]).ApplyFailure? ==>
            RunAll(db, views, schema, statements) == ApplyFailure(s.phase, s.table))
  {
    assert statements[..i + 1][..i] == statements[..i] && views[..i + 1][..i] == views[..i];
    if RunAll(db, views[..i + 1], schema, statements[..i + 1]).ApplyFailure? {
      FailureStays(db, views, schema, statements, i + 1);
    }
  }

  lemma {:induction false} FailureStays(
    db: Database, views: seq<Database>, schema: ValidatedSchema, statements: seq<Statement>, n: nat)
    requires Executable(db, views, schema, statements) && n <= |statements|
    requires RunAll(db, views[..n], schema, statements[..n]).ApplyFailure?
    ensures RunAll(db, views, schema, statements) == RunAll(db, views[..n], schema, statements[..n])
  {
    if n == |statements| {
      assert statements[..n] == statements && views[..n] == views;
    } else {
      var m := |statements| - 1;
      assert statements[..m][..n] == statements[..n] && views[..m][..n] == views[..n];
      FailureStays(db, views[..m], schema, statements[..m], n);
    }
  }

  lemma ExecutableParts(db: Database, views: seq<Database>, schema: ValidatedSchema, a: seq<Statement>, b: seq<Statement>)
    requires Executable(db, views, schema, a + b)
    ensures Executable(db, views[..|a|], schema, a) && Executable(db, views[|a|..], schema, b)
  {
    forall i | 0 <= i < |a|
      ensures a[i].table in db && a[i].table in views[i]
    {
      assert (a + b)[i] == a[i];
    }
    forall i | 0 <= i < |b|
      ensures b[i].table in db && b[i].table in views[|a|..][i]
    {
      assert (a + b)[|a| + i] == b[i];
    }
  }

  lemma RunAllLast(db: Database, views: seq<Database>, schema: ValidatedSchema, statements: seq<Statement>, s: Statement)
    requires Executable(db, views, schema, statements + [s])
    ensures var n := |statements|;
      && Executable(db, views[..n], schema, statements)
      && var before := RunAll(db, views[..n], schema, statements);
        && (before.Done? ==> Runnable(before.db, views[n], schema, [s.table]))
        && RunAll(db, views, schema, statements + [s])
             == if before.Done? then ApplyStatement(before.db, views[n], schema, s.phase, s.table) else before
  {
    ExecutableParts(db, views, schema, statements, [s]);
    assert (statements + [s])[..|statements|] == statements;
    hide ApplyStatement;
  }

  /** Two runs of statements, one after the other. */
  lemma {:induction false} RunAllAppend(
    db: Database, views: seq<Database>, schema: ValidatedSchema, a: seq<Statement>, b: seq<Statement>)
    requires Executable(db, views, schema, a + b)
    ensures Executable(db, views[..|a|], schema, a)
    ensures var first := RunAll(db, views[..|a|], schema, a);
      && (first.Done? ==> Executable(first.db, views[|a|..], schema, b))
      && RunAll(db, views, schema, a + b) == if first.Done? then RunAll(first.db, views[|a|..], schema, b) else first
  {
    ExecutableParts(db, views, schema, a, b);
    var first := RunAll(db, views[..|a|], schema, a);
    if b == [] {
      assert a + b == a && views[..|a|] == views;
    } else {
      var n := |b| - 1;
      Associate(a, b[..n], [b[n]]);
      assert b[..n] + [b[n]] == b;
      RunAllLast(db, views, schema, a + b[..n], b[n]);
      assert views[..|a| + n][..|a|] == views[..|a|];
      RunAllAppend(db, views[..|a| + n], schema, a, b[..n]);
      if first.Done? {
        assert views[..|a| + n][|a|..] == views[|a|..][..n];
        hide Executable, RunAll;
        RunAllLast(first.db, views[|a|..], schema, b[..n], b[n]);
      }
    }
  }

  // ---- Views that do not change: the pass over one state of the helper tables ----

  ghost predicate Steady(views: seq<Database>, helper: Database) {
    forall i :: 0 <= i < |views| ==> views[i] == helper
  }

  lemma {:induction false} SteadyUpserts(
    db: Database, views: seq<Database>, helper: Database, schema: ValidatedSchema, tables: seq<TableName>)
    requires Executable(db, views, schema, InPhase(Upsert, tables)) && Steady(views, helper)
    ensures Runnable(db, helper, schema, tables)
    ensures RunAll(db, views, schema, InPhase(Upsert, tables)) == ApplyAll(db, helper, schema, Upsert, tables)
  {
    PhaseRunnable(db, views, helper, schema, Upsert, tables);
    if tables != [] {
      var n := |tables| - 1;
      assert InPhase(Upsert, tables)[..n] == InPhase(Upsert, tables[..n]);
      SteadyUpserts(db, views[..n], helper, schema, tables[..n]);
      hide ApplyStatement;
    }
  }

  lemma PhaseRunnable(
    db: Database, views: seq<Database>, helper: Database, schema: ValidatedSchema, phase: Phase, tables: seq<TableName>)
    requires Executable(db, views, schema, InPhase(phase, tables)) && Steady(views, helper)
    ensures Runnable(db, helper, schema, tables)
  {
    forall t | t in tables
      ensures t in db && t in helper
    {
      var i :| 0 <= i < |tables| && tables[i] == t;
      assert InPhase(phase, tables)[i].table == t && views[i] == helper;
    }
  }

  lemma PassSnoc(db: Database, helper: Database, schema: ValidatedSchema, upserts: seq<TableName>, deletes: seq<TableName>)
    requires Runnable(db, helper, schema, upserts) && Runnable(db, helper, schema, deletes) && deletes != []
    ensures var m := |deletes| - 1;
      var before := Pass(db, helper, schema, ReconcileOrder(upserts, deletes[..m]));
      && (before.Done? ==> Runnable(before.db, helper, schema, [deletes[m]]))
      && Pass(db, helper, schema, ReconcileOrder(upserts, deletes))
           == if before.Done? then ApplyStatement(before.db, helper, schema, Delete, deletes[m]) else before
  {
    hide ApplyStatement;
  }

  /** The deletes after the upserts. */
  lemma {:induction false} SteadyDeletes(
    db: Database, views: seq<Database>, helper: Database, schema: ValidatedSchema, upserts: seq<TableName>, deletes: seq<TableName>)
    requires Executable(db, views, schema, InPhase(Upsert, upserts) + InPhase(Delete, deletes)) && Steady(views, helper)
    requires Runnable(db, helper, schema, upserts) && Runnable(db, helper, schema, deletes)
    ensures RunAll(db, views, schema, InPhase(Upsert, upserts) + InPhase(Delete, deletes))
      == Pass(db, helper, schema, ReconcileOrder(upserts, deletes))
  {
    var statements := InPhase(Upsert, upserts) + InPhase(Delete, deletes);
    if deletes == [] {
      assert statements == InPhase(Upsert, upserts);
      SteadyUpserts(db, views, helper, schema, upserts);
    } else {
      var n, m := |statements| - 1, |deletes| - 1;
      assert statements[..n] == InPhase(Upsert, upserts) + InPhase(Delete, deletes[..m]);
      assert statements[n] == Statement(Delete, deletes[m]) && views[n] == helper;
      SteadyDeletes(db, views[..n], helper, schema, upserts, deletes[..m]);
      hide ApplyStatement, Pass, InPhase;
      PassSnoc(db, helper, schema, upserts, deletes);
    }
  }

  lemma SplitViews(db: Database, views: seq<Database>, schema: ValidatedSchema, order: ReconcileOrder)
    requires Executable(db, views, schema, StatementsOf(order))
    ensures Executable(db, views[..|order.upsertOrder|], schema, InPhase(Upsert, order.upsertOrder))
    ensures Executable(db, views[|order.upsertOrder|..], schema, InPhase(Delete, order.deleteOrder))
  {
    var n, statements := |order.upsertOrder|, StatementsOf(order);
    forall i | 0 <= i < n
      ensures order.upsertOrder[i] in db && order.upsertOrder[i] in views[i]
    {
      assert statements[i] == Statement(Upsert, order.upsertOrder[i]);
    }
    forall i | 0 <= i < |order.deleteOrder|
      ensures order.deleteOrder[i] in db && order.deleteOrder[i] in views[n..][i]
    {
      assert statements[n + i] == Statement(Delete, order.deleteOrder[i]);
    }
  }

  /** If no batch comes in between, the statements make one pass over the helper tables as they are. */
  lemma SteadyIsPass(db: Database, views: seq<Database>, helper: Database, schema: ValidatedSchema, order: ReconcileOrder)
    requires Executable(db, views, schema, StatementsOf(order)) && Steady(views, helper)
    ensures Runnable(db, helper, schema, order.upsertOrder) && Runnable(db, helper, schema, order.deleteOrder)
    ensures RunAll(db, views, schema, StatementsOf(order)) == Pass(db, helper, schema, order)
  {
    SplitViews(db, views, schema, order);
    PhaseRunnable(db, views[..|order.upsertOrder|], helper, schema, Upsert, order.upsertOrder);
    PhaseRunnable(db, views[|order.upsertOrder|..], helper, schema, Delete, order.deleteOrder);
    SteadyDeletes(db, views, helper, schema, order.upsertOrder, order.deleteOrder);
  }

  // ---- Any views ----

  /** Real tables whose rows are well formed and satisfy the foreign keys. */
  ghost predicate Sound(db: Database, schema: ValidatedSchema) {
    WellFormed(schema, db) && Consistent(db, schema) && forall t :: t in db ==> RealRows(db[t], schema[t])
  }

  ghost predicate HelperTables(helper: Database, schema: ValidatedSchema) {
    helper.Keys <= schema.Keys && forall t :: t in helper ==> HelperRows(helper[t], schema[t])
  }

  lemma SoundIsReady(db: Database, helper: Database, schema: ValidatedSchema)
    requires Sound(db, schema) && db.Keys == helper.Keys && HelperTables(helper, schema)
    ensures Ready(db, helper, schema) && Consistent(db, schema)
  {
  }

  /** A pass that succeeds and whose statements all see the same helper tables makes the real tables equal to them
      exactly if they are closed, which they are if no foreign key cascades or sets null. */
  lemma SteadyEqualizes(db: Database, views: seq<Database>, helper: Database, schema: ValidatedSchema, order: ReconcileOrder)
    requires Sound(db, schema) && db.Keys == helper.Keys && HelperTables(helper, schema) && Plans(order, db, schema)
    requires Executable(db, views, schema, StatementsOf(order)) && Steady(views, helper)
    requires RunAll(db, views, schema, StatementsOf(order)).Done?
    ensures var r := RunAll(db, views, schema, StatementsOf(order)).db;
      && (r == ShownAll(helper, schema) <==> Closed(helper, schema))
      && (Passive(schema, r) ==> Closed(helper, schema))
  {
    SoundIsReady(db, helper, schema);
    SteadyIsPass(db, views, helper, schema, order);
    hide Plans, Pass, RunAll, ShownAll, Closed, Consistent, Ready, PassSpreads, Runnable, Executable, Steady, Sound, HelperTables;
    SucceededHasKeys(db, helper, schema, order);
    PassSucceeds(db, helper, schema, order);
    var r := Pass(db, helper, schema, order).db;
    if Passive(schema, r) {
      assert Passive(schema, db);
      hide Passive;
      PassivePassSucceeds(db, helper, schema, order);
    }
  }

  lemma UpsertKeepsSound(db: Database, view: Database, schema: ValidatedSchema, t: TableName)
    requires Sound(db, schema) && HelperTables(view, schema) && Runnable(db, view, schema, [t])
    ensures var r := ApplyUpsert(db, view, schema, t); r.Done? ==> Sound(r.db, schema)
  {
    var r := ApplyUpsert(db, view, schema, t);
    assert t in [t];
    if r.Done? {
      WellFormedAlike(schema, db, r);
      UpsertedShows(db[t], view[t], schema[t]);
      hide Upserted, RealRows, HelperRows, Consistent;
    }
  }

  lemma DeleteKeepsSound(db: Database, view: Database, schema: ValidatedSchema, t: TableName)
    requires Sound(db, schema) && Runnable(db, view, schema, [t])
    ensures var r := ApplyDelete(db, view, schema, t); r.Done? ==> Sound(r.db, schema)
  {
    var r := ApplyDelete(db, view, schema, t);
    assert t in [t];
    if r.Done? {
      WellFormedAlike(schema, db, r);
      hide DeleteStatement, WellFormed, RealRows, Consistent;
      DeleteKeeps(db, view, schema, t);
      forall u | u in r.db
        ensures RealRows(r.db[u], schema[u])
      {
        DeleteKeepsReal(db, view, schema, t, u);
      }
    }
  }

  lemma StatementKeepsSound(db: Database, view: Database, schema: ValidatedSchema, s: Statement)
    requires Sound(db, schema) && HelperTables(view, schema) && Runnable(db, view, schema, [s.table])
    ensures var r := ApplyStatement(db, view, schema, s.phase, s.table); r.Done? ==> Sound(r.db, schema)
  {
    hide Sound, HelperTables, ApplyUpsert, ApplyDelete;
    if s.phase == Upsert {
      UpsertKeepsSound(db, view, schema, s.table);
    } else {
      DeleteKeepsSound(db, view, schema, s.table);
    }
  }

  /** Whatever the statements see, they leave well-formed rows that satisfy the foreign keys. */
  lemma {:induction false} RunKeepsSound(db: Database, views: seq<Database>, schema: ValidatedSchema, statements: seq<Statement>)
    requires Executable(db, views, schema, statements) && Sound(db, schema)
    requires forall i :: 0 <= i < |views| ==> HelperTables(views[i], schema)
    ensures var r := RunAll(db, views, schema, statements); r.Done? ==> Sound(r.db, schema)
  {
    hide Sound, HelperTables, ApplyStatement;
    if statements != [] {
      var n := |statements| - 1;
      RunKeepsSound(db, views[..n], schema, statements[..n]);
      var before := RunAll(db, views[..n], schema, statements[..n]);
      if before.Done? {
        StatementKeepsSound(before.db, views[n], schema, statements[n]);
      }
    }
  }

  /** Some ON DELETE action removes or empties a row that its statement would have left. */
  predicate Spreads(db: Database, views: seq<Database>, schema: ValidatedSchema, statements: seq<Statement>)
    requires Executable(db, views, schema, statements)
  {
    if statements == [] then false
    else
      var n := |statements| - 1;
      var before := RunAll(db, views[..n], schema, statements[..n]);
      || Spreads(db, views[..n], schema, statements[..n])
      || (before.Done? && statements[n].phase == Delete && DeleteSpreads(before.db, views[n], schema, statements[n].table))
  }

  function RowIn(db: Database, t: TableName, k: Key): Option<Row> {
    if t in db && k in db[t] then Some(db[t][k]) else None
  }

  /** The row of a helper table as the real table shows it. */
  function ShownIn(view: Database, schema: ValidatedSchema, t: TableName, k: Key): Option<Row>
    requires t in schema
  {
    if t in view && k in view[t] then Some(Narrowed(view[t][k], Writable(schema[t]))) else None
  }

  /** What the statements about table t make of the row under key k: an upsert takes the row of its view if there is
      one, a delete drops the row unless its view has one. */
  function RowLeft(before: Option<Row>, views: seq<Database>, schema: ValidatedSchema, statements: seq<Statement>, t: TableName, k: Key): Option<Row>
    requires |views| == |statements| && t in schema
  {
    if statements == [] then before
    else
      var n := |statements| - 1;
      var row := RowLeft(before, views[..n], schema, statements[..n], t, k);
      var seen := ShownIn(views[n], schema, t, k);
      if statements[n].table != t then row
      else if statements[n].phase == Upsert then (if seen.Some? then seen else row)
      else (if seen.Some? then row else None)
  }

  lemma UpsertLeaves(db: Database, view: Database, schema: ValidatedSchema, u: TableName, t: TableName, k: Key)
    requires Sound(db, schema) && HelperTables(view, schema) && Runnable(db, view, schema, [u]) && t in db
    ensures var r := ApplyUpsert(db, view, schema, u);
      r.Done? ==> RowIn(r.db, t, k) == if u == t && ShownIn(view, schema, t, k).Some? then ShownIn(view, schema, t, k) else RowIn(db, t, k)
  {
    assert u in [u];
    UpsertedShows(db[u], view[u], schema[u]);
    hide Upserted, RealRows, HelperRows, Consistent, WellFormed, Narrowed;
  }

  lemma DeleteLeaves(db: Database, view: Database, schema: ValidatedSchema, u: TableName, t: TableName, k: Key)
    requires Runnable(db, view, schema, [u]) && t in db && u in db && u in view && !DeleteSpreads(db, view, schema, u)
    ensures var r := ApplyDelete(db, view, schema, u);
      r.Done? ==> RowIn(r.db, t, k) == if u == t && ShownIn(view, schema, t, k).None? then None else RowIn(db, t, k)
  {
    PlainDelete(db, view, schema, u);
    hide DeleteStatement, DeleteSpreads, Narrowed;
  }

  /** Unless an action spreads, every row is as the statements about its table left it. */
  lemma {:induction false} RunLeaves(
    db: Database, views: seq<Database>, schema: ValidatedSchema, statements: seq<Statement>, t: TableName, k: Key)
    requires Executable(db, views, schema, statements) && Sound(db, schema) && t in db
    requires forall i :: 0 <= i < |views| ==> HelperTables(views[i], schema)
    requires !Spreads(db, views, schema, statements)
    ensures var r := RunAll(db, views, schema, statements);
      r.Done? ==> RowIn(r.db, t, k) == RowLeft(RowIn(db, t, k), views, schema, statements, t, k)
  {
    if statements != [] {
      var n := |statements| - 1;
      var s := statements[n];
      RunLeaves(db, views[..n], schema, statements[..n], t, k);
      RunKeepsSound(db, views[..n], schema, statements[..n]);
      var before := RunAll(db, views[..n], schema, statements[..n]);
      hide Sound, HelperTables, RowIn, ShownIn, DeleteSpreads;
      if before.Done? {
        if s.phase == Upsert {
          UpsertLeaves(before.db, views[n], schema, s.table, t, k);
        } else {
          DeleteLeaves(before.db, views[n], schema, s.table, t, k);
        }
      }
    }
  }

  /** A key that no batch changes from the first to the last statement about its table is left as the helper table
      has it. */
  lemma SteadyKey(
    db: Database, views: seq<Database>, schema: ValidatedSchema, order: ReconcileOrder, t: TableName, k: Key, row: Option<Row>)
    requires Executable(db, views, schema, StatementsOf(order)) && Sound(db, schema) && t in db
    requires forall i :: 0 <= i < |views| ==> HelperTables(views[i], schema)
    requires !Spreads(db, views, schema, StatementsOf(order)) && t in order.upsertOrder && t in order.deleteOrder
    requires forall i :: 0 <= i < |views| && StatementsOf(order)[i].table == t ==> ShownIn(views[i], schema, t, k) == row
    ensures var r := RunAll(db, views, schema, StatementsOf(order)); r.Done? ==> RowIn(r.db, t, k) == row
  {
    RunLeaves(db, views, schema, StatementsOf(order), t, k);
    hide Sound, HelperTables, RunAll, RowIn, ShownIn;
    SteadyRow(RowIn(db, t, k), views, schema, order.upsertOrder, order.deleteOrder, t, k, row);
  }

  lemma {:induction false} SteadyUpsert(
    before: Option<Row>, views: seq<Database>, schema: ValidatedSchema, upserts: seq<TableName>, t: TableName, k: Key, row: Option<Row>)
    requires |views| == |upserts| && t in schema
    requires forall i :: 0 <= i < |views| && upserts[i] == t ==> ShownIn(views[i], schema, t, k) == row
    ensures RowLeft(before, views, schema, InPhase(Upsert, upserts), t, k) == if t in upserts && row.Some? then row else before
  {
    if upserts != [] {
      var n := |upserts| - 1;
      assert InPhase(Upsert, upserts)[..n] == InPhase(Upsert, upserts[..n]);
      SteadyUpsert(before, views[..n], schema, upserts[..n], t, k, row);
      assert upserts == upserts[..n] + [upserts[n]];
    }
  }

  lemma {:induction false} SteadyRow(
    before: Option<Row>, views: seq<Database>, schema: ValidatedSchema, upserts: seq<TableName>, deletes: seq<TableName>,
    t: TableName, k: Key, row: Option<Row>)
    requires var statements := InPhase(Upsert, upserts) + InPhase(Delete, deletes);
      && |views| == |statements| && t in schema && t in upserts
      && forall i :: 0 <= i < |views| && statements[i].table == t ==> ShownIn(views[i], schema, t, k) == row
    ensures RowLeft(before, views, schema, InPhase(Upsert, upserts) + InPhase(Delete, deletes), t, k)
      == if row.Some? || t in deletes then row else before
  {
    var statements := InPhase(Upsert, upserts) + InPhase(Delete, deletes);
    if deletes == [] {
      assert statements == InPhase(Upsert, upserts);
      SteadyUpsert(before, views, schema, upserts, t, k, row);
    } else {
      var n, m := |statements| - 1, |deletes| - 1;
      assert statements[..n] == InPhase(Upsert, upserts) + InPhase(Delete, deletes[..m]);
      SteadyRow(before, views[..n], schema, upserts, deletes[..m], t, k, row);
      assert deletes == deletes[..m] + [deletes[m]];
    }
  }
}

/** One reconcile pass: what each statement does to the real tables, and when a pass in
    foreign-key order makes them equal to the helper tables. */
module Reconcile {
  import opened HelperPlan
  import opened Tables
  import opened Deletes
  import opened Seqs

  // ---- The statements ----

  /** INSERT .. SELECT of the helper row's writable columns ON CONFLICT on the primary key DO UPDATE the others. */
  function UpsertRow(rows: Rows, k: Key, helperRow: Row, s: TableSchema): Row {
    var written := Narrowed(helperRow, Writable(s));
    if k in rows then rows[k] + (written - (set c | c in s.primaryKey)) else written
  }

  function Upserted(rows: Rows, helper: Rows, s: TableSchema): Rows {
    map k | k in rows.Keys + helper.Keys :: if k in helper then UpsertRow(rows, k, helper[k], s) else rows[k]
  }

  datatype Phase = Upsert | Delete

  datatype Applied = Done(db: Database) | ApplyFailure(phase: Phase, table: TableName)

  /** The tables of a pass exist on both sides and their schemas are known. */
  predicate Runnable(db: Database, helper: Database, schema: ValidatedSchema, tables: seq<TableName>) {
    && db.Keys <= schema.Keys && forall t :: t in tables ==> t in db && t in helper
  }

  /** The upsert statement fails without primary-key metadata, or when it would violate a foreign key. */
  function ApplyUpsert(db: Database, helper: Database, schema: ValidatedSchema, t: TableName): (r: Applied)
    requires Runnable(db, helper, schema, [t])
    ensures r.Done? ==> r.db.Keys == db.Keys
  {
    assert t in [t];
    var after := db[t := Upserted(db[t], helper[t], schema[t])];
    assert after.Keys == db.Keys;
    if schema[t].primaryKey == [] || !Consistent(after, schema) then ApplyFailure(Upsert, t) else Done(after)
  }

  /** The delete statement fails without primary-key metadata, or when an ON DELETE action does. */
  function ApplyDelete(db: Database, helper: Database, schema: ValidatedSchema, t: TableName): (r: Applied)
    requires Runnable(db, helper, schema, [t])
    ensures r.Done? ==> r.db.Keys == db.Keys
  {
    assert t in [t];
    var after := DeleteStatement(db, helper, schema, t);
    if schema[t].primaryKey == [] || after.None? then ApplyFailure(Delete, t) else Done(after.value)
  }

  function ApplyStatement(db: Database, helper: Database, schema: ValidatedSchema, phase: Phase, t: TableName): (r: Applied)
    requires Runnable(db, helper, schema, [t])
    ensures r.Done? ==> r.db.Keys == db.Keys
    ensures r.ApplyFailure? ==> r.phase == phase && r.table == t
  {
    match phase
    case Upsert => ApplyUpsert(db, helper, schema, t)
    case Delete => ApplyDelete(db, helper, schema, t)
  }

  function ApplyAll(db: Database, helper: Database, schema: ValidatedSchema, phase: Phase, tables: seq<TableName>): (r: Applied)
    requires Runnable(db, helper, schema, tables)
    ensures r.Done? ==> r.db.Keys == db.Keys
  {
    if tables == [] then Done(db)
    else
      var before := ApplyAll(db, helper, schema, phase, tables[..|tables| - 1]);
      if before.Done? then ApplyStatement(before.db, helper, schema, phase, tables[|tables| - 1]) else before
  }

  /** All upserts in upsert order, then all deletes in delete order; the first failure ends the pass. */
  function Pass(db: Database, helper: Database, schema: ValidatedSchema, order: ReconcileOrder): Applied
    requires Runnable(db, helper, schema, order.upsertOrder) && Runnable(db, helper, schema, order.deleteOrder)
  {
    var upserted := ApplyAll(db, helper, schema, Upsert, order.upsertOrder);
    if upserted.Done? then ApplyAll(upserted.db, helper, schema, Delete, order.deleteOrder) else upserted
  }

  // ---- What the upsert statement does to one table ----

  lemma ShownRow(row: Row, k: Key, s: TableSchema)
    requires HelperRow(row, k, s) && forall c :: c in s.primaryKey ==> c in Writable(s)
    ensures RealRow(Narrowed(row, Writable(s)), k, s)
  {
  }

  /** Whether the key was there or not, the upserted row shows exactly what the helper row has. */
  lemma UpsertRowShows(rows: Rows, k: Key, helperRow: Row, s: TableSchema)
    requires RealRows(rows, s) && HelperRow(helperRow, k, s) && forall c :: c in s.primaryKey ==> c in Writable(s)
    ensures UpsertRow(rows, k, helperRow, s) == Narrowed(helperRow, Writable(s))
  {
    if k in rows {
      assert RealRow(rows[k], k, s);
      SameKeySameColumns(rows[k], helperRow, s.primaryKey);
    }
  }

  lemma UpsertedShows(rows: Rows, helper: Rows, s: TableSchema)
    requires RealRows(rows, s) && HelperRows(helper, s) && forall c :: c in s.primaryKey ==> c in Writable(s)
    ensures Upserted(rows, helper, s) == rows + Shown(helper, s)
    ensures RealRows(Upserted(rows, helper, s), s)
  {
    hide RealRow, HelperRow, UpsertRow, Narrowed;
    forall k | k in helper
      ensures UpsertRow(rows, k, helper[k], s) == Narrowed(helper[k], Writable(s))
      ensures RealRow(Narrowed(helper[k], Writable(s)), k, s)
    {
      UpsertRowShows(rows, k, helper[k], s);
      ShownRow(helper[k], k, s);
    }
  }

  // ---- Foreign keys during the upserts ----

  function Listed(tables: seq<TableName>): set<TableName> {
    set t | t in tables
  }

  /** The real tables once those in done are upserted. */
  function UpsertedIn(db: Database, helper: Database, schema: ValidatedSchema, done: set<TableName>): (r: Database)
    requires db.Keys == helper.Keys && db.Keys <= schema.Keys
    ensures r.Keys == db.Keys
  {
    map t | t in db :: if t in done then db[t] + Shown(helper[t], schema[t]) else db[t]
  }

  ghost predicate ParentClosed(done: set<TableName>, db: Database, schema: ValidatedSchema)
    requires db.Keys <= schema.Keys
  {
    forall t, i :: t in done && t in db && 0 <= i < |schema[t].foreignKeys| && schema[t].foreignKeys[i].referencedTable in db
      ==> schema[t].foreignKeys[i].referencedTable in done
  }

  lemma MatchesMoved(row: Row, fk: ForeignKey, a: Row, b: Row)
    requires Matches(row, fk, a) && forall c :: c in fk.referencedColumns ==> c in a && c in b && a[c] == b[c]
    ensures Matches(row, fk, b)
  {
    forall i | 0 <= i < |fk.columns|
      ensures fk.referencedColumns[i] in b && a[fk.referencedColumns[i]] == b[fk.referencedColumns[i]]
    {
      assert fk.referencedColumns[i] in fk.referencedColumns;
    }
  }

  /** Parents that keep their keys keep their children's references. */
  lemma ReferenceKept(row: Row, fk: ForeignKey, parents: Rows, grown: Rows, s: TableSchema)
    requires RowSatisfies(row, fk, parents) && RealRows(parents, s) && RealRows(grown, s) && parents.Keys <= grown.Keys
    requires forall c :: c in fk.referencedColumns ==> c in s.primaryKey
    ensures RowSatisfies(row, fk, grown)
  {
    if !HasNull(row, fk) {
      var p :| p in parents && Matches(row, fk, parents[p]);
      assert RealRow(parents[p], p, s) && RealRow(grown[p], p, s);
      SameKeySameColumns(parents[p], grown[p], s.primaryKey);
      hide HasNull, Matches, RealRow, RealRows;
      MatchesMoved(row, fk, parents[p], grown[p]);
    }
  }

  lemma ShownReal(helper: Rows, s: TableSchema)
    requires HelperRows(helper, s) && forall c :: c in s.primaryKey ==> c in Writable(s)
    ensures RealRows(Shown(helper, s), s)
  {
    hide RealRow, HelperRow, Narrowed;
    forall k | k in helper
      ensures RealRow(Narrowed(helper[k], Writable(s)), k, s)
    {
      ShownRow(helper[k], k, s);
    }
  }

  lemma TablesReal(db: Database, helper: Database, schema: ValidatedSchema, done: set<TableName>, t: TableName)
    requires Ready(db, helper, schema) && t in db
    ensures RealRows(Shown(helper[t], schema[t]), schema[t]) && RealRows(UpsertedIn(db, helper, schema, done)[t], schema[t])
  {
    hide RealRow, HelperRow, KeyToPrimary, Shown;
    ShownReal(helper[t], schema[t]);
  }

  lemma UpsertedRowSatisfies(
    db: Database, helper: Database, schema: ValidatedSchema, done: set<TableName>, t: TableName, i: nat, k: Key)
    requires Ready(db, helper, schema) && Consistent(db, schema) && Closed(helper, schema)
    requires ParentClosed(done, db, schema) && t in db && i < |schema[t].foreignKeys|
    requires schema[t].foreignKeys[i].referencedTable in db && k in UpsertedIn(db, helper, schema, done)[t]
    ensures var after := UpsertedIn(db, helper, schema, done);
      RowSatisfies(after[t][k], schema[t].foreignKeys[i], after[schema[t].foreignKeys[i].referencedTable])
  {
    var after, fk := UpsertedIn(db, helper, schema, done), schema[t].foreignKeys[i];
    var p := fk.referencedTable;
    TablesReal(db, helper, schema, done, p);
    assert KeyToPrimary(schema, db, t, fk);
    var shown := ShownAll(helper, schema);
    hide RealRows, HelperRows, RowSatisfies, Narrowed, Writable;
    if t in done && k in helper[t] {
      assert TableSatisfies(shown[t], schema[t].foreignKeys, shown);
      ReferenceKept(after[t][k], fk, shown[p], after[p], schema[p]);
    } else {
      assert TableSatisfies(db[t], schema[t].foreignKeys, db);
      ReferenceKept(after[t][k], fk, db[p], after[p], schema[p]);
    }
  }

  /** With the parents of every upserted table upserted too, no foreign key is violated. */
  lemma UpsertedConsistent(db: Database, helper: Database, schema: ValidatedSchema, done: set<TableName>)
    requires Ready(db, helper, schema) && Consistent(db, schema) && Closed(helper, schema)
    requires ParentClosed(done, db, schema)
    ensures Consistent(UpsertedIn(db, helper, schema, done), schema)
  {
    hide ParentClosed, RowSatisfies, Closed, UpsertedIn;
    var after := UpsertedIn(db, helper, schema, done);
    forall t, i, k | t in after && 0 <= i < |schema[t].foreignKeys| && k in after[t]
                     && schema[t].foreignKeys[i].referencedTable in after
      ensures RowSatisfies(after[t][k], schema[t].foreignKeys[i], after[schema[t].foreignKeys[i].referencedTable])
    {
      UpsertedRowSatisfies(db, helper, schema, done, t, i, k);
    }
  }

  lemma MapUpdate<K, V>(before: map<K, V>, after: map<K, V>, k: K)
    requires before.Keys == after.Keys && k in after
    requires forall j :: j in after && j != k ==> before[j] == after[j]
    ensures before[k := after[k]] == after
  {
  }

  lemma AddTwice<K, V>(a: map<K, V>, b: map<K, V>)
    ensures a + b + b == a + b
  {
  }

  lemma UpsertStepTable(db: Database, helper: Database, schema: ValidatedSchema, done: set<TableName>, t: TableName)
    requires Ready(db, helper, schema) && t in db
    ensures Upserted(UpsertedIn(db, helper, schema, done)[t], helper[t], schema[t])
      == UpsertedIn(db, helper, schema, done)[t] + Shown(helper[t], schema[t])
  {
    TablesReal(db, helper, schema, done, t);
    hide Upserted, RealRow, HelperRow, KeyToPrimary, Shown, UpsertedIn, HelperRows, RealRows;
    UpsertedShows(UpsertedIn(db, helper, schema, done)[t], helper[t], schema[t]);
  }

  lemma UpsertStepRows(db: Database, helper: Database, schema: ValidatedSchema, done: set<TableName>, t: TableName)
    requires Ready(db, helper, schema) && t in db
    ensures var before := UpsertedIn(db, helper, schema, done);
      before[t := Upserted(before[t], helper[t], schema[t])] == UpsertedIn(db, helper, schema, done + {t})
  {
    UpsertStepTable(db, helper, schema, done, t);
    assert db.Keys == helper.Keys && db.Keys <= schema.Keys;
    hide Upserted, Shown, Ready;
    var before, after := UpsertedIn(db, helper, schema, done), UpsertedIn(db, helper, schema, done + {t});
    AddTwice(db[t], Shown(helper[t], schema[t]));
    MapUpdate(before, after, t);
  }

  /** One upsert statement in the middle of a pass. */
  lemma UpsertStep(db: Database, helper: Database, schema: ValidatedSchema, done: set<TableName>, t: TableName)
    requires Ready(db, helper, schema) && t in db
    ensures ApplyStatement(UpsertedIn(db, helper, schema, done), helper, schema, Upsert, t)
      == if schema[t].primaryKey != [] && Consistent(UpsertedIn(db, helper, schema, done + {t}), schema)
         then Done(UpsertedIn(db, helper, schema, done + {t})) else ApplyFailure(Upsert, t)
  {
    UpsertStepRows(db, helper, schema, done, t);
    hide Upserted, UpsertedIn, Consistent, RealRows, HelperRows;
  }

  /** Parents come before the tables that reference them. */
  ghost predicate ParentsListed(tables: seq<TableName>, db: Database, schema: ValidatedSchema)
    requires db.Keys <= schema.Keys
  {
    forall n :: 0 <= n <= |tables| ==> ParentClosed(Listed(tables[..n]), db, schema)
  }

  lemma ListedSnoc(tables: seq<TableName>)
    requires tables != []
    ensures Listed(tables) == Listed(tables[..|tables| - 1]) + {tables[|tables| - 1]}
  {
    assert tables == tables[..|tables| - 1] + [tables[|tables| - 1]];
  }

  /** Whatever the order, upserts that all succeed have put the helper rows over the real ones. */
  lemma {:induction false} UpsertsReach(db: Database, helper: Database, schema: ValidatedSchema, tables: seq<TableName>)
    requires Ready(db, helper, schema) && Runnable(db, helper, schema, tables)
    ensures var r := ApplyAll(db, helper, schema, Upsert, tables);
      r.Done? ==> r.db == UpsertedIn(db, helper, schema, Listed(tables))
  {
    if tables == [] {
      assert UpsertedIn(db, helper, schema, {}) == db;
    } else {
      var n := |tables| - 1;
      UpsertsReach(db, helper, schema, tables[..n]);
      ListedSnoc(tables);
      hide Ready, UpsertedIn, ApplyStatement, Listed;
      UpsertStepReady(db, helper, schema, Listed(tables[..n]), tables[n]);
    }
  }

  lemma UpsertStepReady(db: Database, helper: Database, schema: ValidatedSchema, done: set<TableName>, t: TableName)
    requires Ready(db, helper, schema) && t in db
    ensures db.Keys == helper.Keys && db.Keys <= schema.Keys
    ensures var r := ApplyStatement(UpsertedIn(db, helper, schema, done), helper, schema, Upsert, t);
      r.Done? ==> r.db == UpsertedIn(db, helper, schema, done + {t})
  {
    UpsertStep(db, helper, schema, done, t);
  }

  /** In parents-first order every upsert succeeds if the helper tables are closed. */
  lemma {:induction false} UpsertsSucceed(db: Database, helper: Database, schema: ValidatedSchema, tables: seq<TableName>, n: nat)
    requires Ready(db, helper, schema) && Runnable(db, helper, schema, tables) && n <= |tables|
    requires Consistent(db, schema) && Closed(helper, schema) && ParentsListed(tables, db, schema)
    requires forall t :: t in db ==> schema[t].primaryKey != []
    ensures ApplyAll(db, helper, schema, Upsert, tables[..n]) == Done(UpsertedIn(db, helper, schema, Listed(tables[..n])))
  {
    if n == 0 {
      assert UpsertedIn(db, helper, schema, {}) == db;
    } else {
      UpsertsSucceed(db, helper, schema, tables, n - 1);
      assert tables[..n][..n - 1] == tables[..n - 1];
      ListedSnoc(tables[..n]);
      UpsertStep(db, helper, schema, Listed(tables[..n - 1]), tables[n - 1]);
      UpsertedConsistent(db, helper, schema, Listed(tables[..n]));
    }
  }

  // ---- Foreign keys during the deletes ----

  /** The real tables, all upserted, once those in gone have lost the rows that the helper tables lack. */
  function DeletedIn(db: Database, helper: Database, schema: ValidatedSchema, gone: set<TableName>): (r: Database)
    requires db.Keys == helper.Keys && db.Keys <= schema.Keys
    ensures r.Keys == db.Keys
  {
    map t | t in db :: if t in gone then Shown(helper[t], schema[t]) else db[t] + Shown(helper[t], schema[t])
  }

  /** A row that a helper row references is the one in the helper table. */
  lemma SurplusUnreferenced(db: Database, helper: Database, schema: ValidatedSchema, child: TableName, k: Key, i: nat, r: Key)
    requires Ready(db, helper, schema) && Closed(helper, schema)
    requires child in db && k in helper[child] && i < |schema[child].foreignKeys|
    requires var t := schema[child].foreignKeys[i].referencedTable; t in db && r in db[t] && r !in helper[t]
    ensures var fk := schema[child].foreignKeys[i];
      !Matches(Shown(helper[child], schema[child])[k], fk, db[fk.referencedTable][r])
  {
    var fk, shown := schema[child].foreignKeys[i], ShownAll(helper, schema);
    var t, row := fk.referencedTable, Shown(helper[child], schema[child])[k];
    if Matches(row, fk, db[t][r]) {
      assert KeyToPrimary(schema, db, child, fk);
      TablesReal(db, helper, schema, {}, t);
      assert RowSatisfies(row, fk, shown[t]) by {
        assert TableSatisfies(shown[child], schema[child].foreignKeys, shown);
        assert k in shown[child] && shown[child][k] == row;
      }
      assert !HasNull(row, fk);
      var q :| q in shown[t] && Matches(row, fk, shown[t][q]);
      assert RealRow(db[t][r], r, schema[t]) && RealRow(shown[t][q], q, schema[t]);
      hide Ready, Closed, RealRow, Matches;
      MatchesOnce(row, fk, db[t][r], r, shown[t][q], q, schema[t]);
    }
  }

  /** All tables that reference t have lost their surplus rows. */
  ghost predicate ChildrenGone(t: TableName, gone: set<TableName>, db: Database, schema: ValidatedSchema)
    requires db.Keys <= schema.Keys
  {
    forall child, i :: child in db && 0 <= i < |schema[child].foreignKeys| ==>
      schema[child].foreignKeys[i].referencedTable == t ==> child in gone
  }

  /** Then no surplus row of t is referenced any more. */
  lemma DeleteSafe(db: Database, helper: Database, schema: ValidatedSchema, gone: set<TableName>, t: TableName)
    requires Ready(db, helper, schema) && Closed(helper, schema) && t in db && t !in gone
    requires ChildrenGone(t, gone, db, schema)
    ensures !DeleteFires(DeletedIn(db, helper, schema, gone), helper, schema, t)
  {
    var now := DeletedIn(db, helper, schema, gone);
    forall x, i | x in AllRows(now) && 0 <= i < |schema[x.0].foreignKeys|
      ensures !References(now, schema, x, i, Surplus(now, helper, t))
    {
      NoSurplusReferenced(db, helper, schema, gone, t, x, i);
    }
  }

  lemma NoSurplusReferenced(
    db: Database, helper: Database, schema: ValidatedSchema, gone: set<TableName>, t: TableName, x: RowId, i: nat)
    requires Ready(db, helper, schema) && Closed(helper, schema) && t in db && t !in gone
    requires ChildrenGone(t, gone, db, schema)
    requires Has(DeletedIn(db, helper, schema, gone), x) && i < |schema[x.0].foreignKeys|
    ensures var now := DeletedIn(db, helper, schema, gone); !References(now, schema, x, i, Surplus(now, helper, t))
  {
    var now := DeletedIn(db, helper, schema, gone);
    forall r | schema[x.0].foreignKeys[i].referencedTable == t && r in now[t] && r !in helper[t]
      ensures !Matches(now[x.0][x.1], schema[x.0].foreignKeys[i], now[t][r])
    {
      SurplusUnreferenced(db, helper, schema, x.0, x.1, i, r);
    }
  }

  lemma DeleteStep(db: Database, helper: Database, schema: ValidatedSchema, gone: set<TableName>, t: TableName)
    requires db.Keys == helper.Keys && db.Keys <= schema.Keys && t in db
    requires !DeleteSpreads(DeletedIn(db, helper, schema, gone), helper, schema, t)
    ensures var r := ApplyStatement(DeletedIn(db, helper, schema, gone), helper, schema, Delete, t);
      && (r.Done? ==> r.db == DeletedIn(db, helper, schema, gone + {t}))
      && (schema[t].primaryKey != [] && !DeleteFires(DeletedIn(db, helper, schema, gone), helper, schema, t) ==> r.Done?)
  {
    DeletedStep(db, helper, schema, gone, t);
    hide Deleted, DeletedIn, DeleteFires, DeleteSpreads, DeleteStatement;
    PlainDelete(DeletedIn(db, helper, schema, gone), helper, schema, t);
  }

  lemma DeletedStep(db: Database, helper: Database, schema: ValidatedSchema, gone: set<TableName>, t: TableName)
    requires db.Keys == helper.Keys && db.Keys <= schema.Keys && t in db
    ensures var before := DeletedIn(db, helper, schema, gone);
      before[t := Deleted(before[t], helper[t])] == DeletedIn(db, helper, schema, gone + {t})
  {
    var before, after := DeletedIn(db, helper, schema, gone), DeletedIn(db, helper, schema, gone + {t});
    assert Deleted(before[t], helper[t]) == after[t];
    hide Deleted, Shown;
    MapUpdate(before, after, t);
  }

  /** An ON DELETE action of one of the delete statements removes or empties another row. */
  predicate DeletesSpread(db: Database, helper: Database, schema: ValidatedSchema, tables: seq<TableName>)
    requires Runnable(db, helper, schema, tables)
  {
    if tables == [] then false
    else
      var n := |tables| - 1;
      var before := ApplyAll(db, helper, schema, Delete, tables[..n]);
      DeletesSpread(db, helper, schema, tables[..n]) || (before.Done? && DeleteSpreads(before.db, helper, schema, tables[n]))
  }

  /** Whatever the order, deletes that all succeed and do not spread have taken the surplus rows away. */
  lemma {:induction false} DeletesReach(db: Database, helper: Database, schema: ValidatedSchema, tables: seq<TableName>)
    requires db.Keys == helper.Keys && Runnable(db, helper, schema, tables)
    requires !DeletesSpread(DeletedIn(db, helper, schema, {}), helper, schema, tables)
    ensures var r := ApplyAll(DeletedIn(db, helper, schema, {}), helper, schema, Delete, tables);
      r.Done? ==> r.db == DeletedIn(db, helper, schema, Listed(tables))
  {
    if tables != [] {
      var n := |tables| - 1;
      DeletesReach(db, helper, schema, tables[..n]);
      ListedSnoc(tables);
      var before := ApplyAll(DeletedIn(db, helper, schema, {}), helper, schema, Delete, tables[..n]);
      hide DeletedIn, ApplyStatement, Listed, DeleteFires, DeleteSpreads;
      if before.Done? {
        DeleteStep(db, helper, schema, Listed(tables[..n]), tables[n]);
      }
    }
  }

  /** Children come before the tables they reference. */
  ghost predicate ChildrenListed(tables: seq<TableName>, db: Database, schema: ValidatedSchema)
    requires db.Keys <= schema.Keys
  {
    forall n :: 0 <= n < |tables| ==> tables[n] !in tables[..n] && ChildrenGone(tables[n], Listed(tables[..n]), db, schema)
  }

  lemma DeleteInOrder(db: Database, helper: Database, schema: ValidatedSchema, tables: seq<TableName>, n: nat)
    requires Ready(db, helper, schema) && Runnable(db, helper, schema, tables) && n < |tables|
    requires Closed(helper, schema) && ChildrenListed(tables, db, schema)
    ensures var before := DeletedIn(db, helper, schema, Listed(tables[..n]));
      && !DeleteFires(before, helper, schema, tables[n]) && !DeleteSpreads(before, helper, schema, tables[n])
      && (schema[tables[n]].primaryKey != [] ==>
            ApplyStatement(before, helper, schema, Delete, tables[n]) == Done(DeletedIn(db, helper, schema, Listed(tables[..n + 1]))))
  {
    assert tables[..n + 1][..n] == tables[..n];
    ListedSnoc(tables[..n + 1]);
    assert tables[n] !in tables[..n] && ChildrenGone(tables[n], Listed(tables[..n]), db, schema);
    DeleteSafe(db, helper, schema, Listed(tables[..n]), tables[n]);
    hide DeletedIn, Closed, ChildrenGone, ChildrenListed, Ready, ApplyStatement;
    FiresIfSpreads(DeletedIn(db, helper, schema, Listed(tables[..n])), helper, schema, tables[n]);
    DeleteStepReady(db, helper, schema, Listed(tables[..n]), tables[n]);
  }

  lemma FiresIfSpreads(db: Database, helper: Database, schema: ValidatedSchema, t: TableName)
    requires db.Keys <= schema.Keys && t in db && t in helper
    ensures DeleteSpreads(db, helper, schema, t) ==> DeleteFires(db, helper, schema, t)
  {
  }

  lemma DeleteStepReady(db: Database, helper: Database, schema: ValidatedSchema, gone: set<TableName>, t: TableName)
    requires Ready(db, helper, schema) && t in db
    requires !DeleteSpreads(DeletedIn(db, helper, schema, gone), helper, schema, t)
    ensures db.Keys == helper.Keys && db.Keys <= schema.Keys
    ensures schema[t].primaryKey != [] && !DeleteFires(DeletedIn(db, helper, schema, gone), helper, schema, t) ==>
      ApplyStatement(DeletedIn(db, helper, schema, gone), helper, schema, Delete, t)
        == Done(DeletedIn(db, helper, schema, gone + {t}))
  {
    hide DeletedIn, DeleteFires, DeleteSpreads;
    DeleteStep(db, helper, schema, gone, t);
  }

  lemma DeletesSnoc(db: Database, helper: Database, schema: ValidatedSchema, tables: seq<TableName>, n: nat)
    requires Runnable(db, helper, schema, tables) && n < |tables|
    requires ApplyAll(db, helper, schema, Delete, tables[..n]).Done?
    ensures var before := ApplyAll(db, helper, schema, Delete, tables[..n]).db;
      && tables[n] in before && tables[n] in helper
      && ApplyAll(db, helper, schema, Delete, tables[..n + 1]) == ApplyStatement(before, helper, schema, Delete, tables[n])
      && (DeletesSpread(db, helper, schema, tables[..n + 1]) <==>
            DeletesSpread(db, helper, schema, tables[..n]) || DeleteSpreads(before, helper, schema, tables[n]))
  {
    assert tables[..n + 1][..n] == tables[..n];
    hide ApplyStatement, DeleteSpreads;
  }

  /** The first n deletes have taken the surplus rows of their tables and nothing else. */
  ghost predicate DeletedSoFar(db: Database, helper: Database, schema: ValidatedSchema, tables: seq<TableName>, n: nat)
    requires db.Keys == helper.Keys && Runnable(db, helper, schema, tables) && n <= |tables|
  {
    && ApplyAll(DeletedIn(db, helper, schema, {}), helper, schema, Delete, tables[..n])
      == Done(DeletedIn(db, helper, schema, Listed(tables[..n])))
    && !DeletesSpread(DeletedIn(db, helper, schema, {}), helper, schema, tables[..n])
  }

  /** In children-first order no action of a delete statement fires if the helper tables are closed, and all succeed. */
  lemma {:induction false} DeletesSucceed(db: Database, helper: Database, schema: ValidatedSchema, tables: seq<TableName>, n: nat)
    requires Ready(db, helper, schema) && Runnable(db, helper, schema, tables) && n <= |tables|
    requires Closed(helper, schema) && ChildrenListed(tables, db, schema)
    requires forall t :: t in db ==> schema[t].primaryKey != []
    ensures DeletedSoFar(db, helper, schema, tables, n)
  {
    assert db.Keys == helper.Keys && db.Keys <= schema.Keys;
    if n > 0 {
      DeletesSucceed(db, helper, schema, tables, n - 1);
      hide DeletedIn, Closed, ChildrenListed, Ready, ApplyStatement, Listed, DeleteSpreads, DeleteFires, ApplyAll, DeletesSpread;
      DeletesSnoc(DeletedIn(db, helper, schema, {}), helper, schema, tables, n - 1);
      DeleteInOrder(db, helper, schema, tables, n - 1);
    }
  }

  // ---- The whole pass ----

  /** Every statement of every pass, in any order, keeps all foreign keys satisfied and all rows well formed. */
  lemma {:induction false} StatementsKeep(
    db: Database, helper: Database, schema: ValidatedSchema, phase: Phase, tables: seq<TableName>)
    requires Runnable(db, helper, schema, tables) && WellFormed(schema, db) && Consistent(db, schema)
    ensures var r := ApplyAll(db, helper, schema, phase, tables); r.Done? ==> Consistent(r.db, schema) && WellFormed(schema, r.db)
  {
    if tables != [] {
      var n := |tables| - 1;
      StatementsKeep(db, helper, schema, phase, tables[..n]);
      var before := ApplyAll(db, helper, schema, phase, tables[..n]);
      if before.Done? {
        WellFormedAlike(schema, db, ApplyAll(db, helper, schema, phase, tables));
        hide Consistent, WellFormed, DeleteStatement;
        if phase == Delete {
          DeleteKeeps(before.db, helper, schema, tables[n]);
        }
      }
    }
  }

  lemma WellFormedAlike(schema: ValidatedSchema, db: Database, r: Applied)
    requires WellFormed(schema, db) && (r.Done? ==> r.db.Keys == db.Keys)
    ensures r.Done? ==> WellFormed(schema, r.db)
  {
    if r.Done? {
      forall t, i | t in db && 0 <= i < |schema[t].foreignKeys|
        ensures KeyToPrimary(schema, r.db, t, schema[t].foreignKeys[i])
      {
        assert KeyToPrimary(schema, db, t, schema[t].foreignKeys[i]);
      }
    }
  }

  /** Deletes keep rows under their keys and NOT NULL columns filled. */
  lemma {:induction false} DeletesKeepReal(db: Database, helper: Database, schema: ValidatedSchema, tables: seq<TableName>)
    requires Runnable(db, helper, schema, tables) && WellFormed(schema, db) && forall t :: t in db ==> RealRows(db[t], schema[t])
    ensures var r := ApplyAll(db, helper, schema, Delete, tables);
      r.Done? ==> WellFormed(schema, r.db) && forall t :: t in r.db ==> RealRows(r.db[t], schema[t])
  {
    if tables != [] {
      var n := |tables| - 1;
      DeletesKeepReal(db, helper, schema, tables[..n]);
      var before := ApplyAll(db, helper, schema, Delete, tables[..n]);
      var r := ApplyAll(db, helper, schema, Delete, tables);
      if r.Done? {
        WellFormedAlike(schema, db, r);
        hide WellFormed, RealRows, DeleteStatement;
        forall t | t in r.db
          ensures RealRows(r.db[t], schema[t])
        {
          DeleteKeepsReal(before.db, helper, schema, tables[n], t);
        }
      }
    }
  }

  /** A pass that succeeds leaves rows that the next one can work with. */
  lemma PassKeepsReal(db: Database, helper: Database, schema: ValidatedSchema, order: ReconcileOrder)
    requires Ready(db, helper, schema)
    requires Runnable(db, helper, schema, order.upsertOrder) && Runnable(db, helper, schema, order.deleteOrder)
    ensures var r := Pass(db, helper, schema, order);
      r.Done? ==> WellFormed(schema, r.db) && forall t :: t in r.db ==> RealRows(r.db[t], schema[t])
  {
    var upserted := ApplyAll(db, helper, schema, Upsert, order.upsertOrder);
    if upserted.Done? {
      UpsertsReach(db, helper, schema, order.upsertOrder);
      WellFormedAlike(schema, db, upserted);
      forall t | t in db
        ensures RealRows(upserted.db[t], schema[t])
      {
        TablesReal(db, helper, schema, Listed(order.upsertOrder), t);
      }
      DeletesKeepReal(upserted.db, helper, schema, order.deleteOrder);
    }
  }

  /** The order has every table, parents before children, and the deletes run in reverse. */
  ghost predicate Plans(order: ReconcileOrder, db: Database, schema: ValidatedSchema)
    requires db.Keys <= schema.Keys
  {
    && Listed(order.upsertOrder) == db.Keys == Listed(order.deleteOrder)
    && ParentsListed(order.upsertOrder, db, schema) && ChildrenListed(order.deleteOrder, db, schema)
  }

  /** Only the tables and their schemas matter. */
  lemma PlansAlike(order: ReconcileOrder, a: Database, b: Database, schema: ValidatedSchema)
    requires a.Keys == b.Keys <= schema.Keys && Plans(order, a, schema)
    ensures Plans(order, b, schema)
  {
    forall n | 0 <= n <= |order.upsertOrder|
      ensures ParentClosed(Listed(order.upsertOrder[..n]), b, schema)
    {
      assert ParentClosed(Listed(order.upsertOrder[..n]), a, schema);
    }
    forall n | 0 <= n < |order.deleteOrder|
      ensures ChildrenGone(order.deleteOrder[n], Listed(order.deleteOrder[..n]), b, schema)
    {
      assert ChildrenGone(order.deleteOrder[n], Listed(order.deleteOrder[..n]), a, schema);
    }
  }

  /** In a pass an ON DELETE action removes or empties a row that its statement would have left. */
  predicate PassSpreads(db: Database, helper: Database, schema: ValidatedSchema, order: ReconcileOrder)
    requires Runnable(db, helper, schema, order.upsertOrder) && Runnable(db, helper, schema, order.deleteOrder)
  {
    var upserted := ApplyAll(db, helper, schema, Upsert, order.upsertOrder);
    upserted.Done? && DeletesSpread(upserted.db, helper, schema, order.deleteOrder)
  }

  /** In any order, a pass over all tables that succeeds without its actions spreading leaves the real tables
      equal to the helper tables. */
  lemma PassEqualizes(db: Database, helper: Database, schema: ValidatedSchema, order: ReconcileOrder)
    requires Ready(db, helper, schema)
    requires Runnable(db, helper, schema, order.upsertOrder) && Runnable(db, helper, schema, order.deleteOrder)
    requires Listed(order.upsertOrder) == db.Keys == Listed(order.deleteOrder)
    requires !PassSpreads(db, helper, schema, order)
    ensures var r := Pass(db, helper, schema, order); r.Done? ==> r.db == ShownAll(helper, schema)
  {
    var upserted := ApplyAll(db, helper, schema, Upsert, order.upsertOrder);
    if upserted.Done? {
      AllUpserted(db, helper, schema, order.upsertOrder);
      hide ApplyAll, DeletedIn, UpsertedIn, ShownAll, Ready;
      DeletesReach(db, helper, schema, order.deleteOrder);
      AllDeleted(db, helper, schema);
    }
  }

  lemma AllUpserted(db: Database, helper: Database, schema: ValidatedSchema, tables: seq<TableName>)
    requires Ready(db, helper, schema) && Runnable(db, helper, schema, tables) && Listed(tables) == db.Keys
    ensures db.Keys == helper.Keys && db.Keys <= schema.Keys
    ensures var r := ApplyAll(db, helper, schema, Upsert, tables); r.Done? ==> r.db == DeletedIn(db, helper, schema, {})
  {
    UpsertsReach(db, helper, schema, tables);
    hide Ready, ApplyAll;
    assert UpsertedIn(db, helper, schema, db.Keys) == DeletedIn(db, helper, schema, {});
  }

  lemma AllDeleted(db: Database, helper: Database, schema: ValidatedSchema)
    requires db.Keys == helper.Keys && db.Keys <= schema.Keys
    ensures DeletedIn(db, helper, schema, db.Keys) == ShownAll(helper, schema)
  {
  }

  lemma {:induction false} AppliedHasKeys(
    db: Database, helper: Database, schema: ValidatedSchema, phase: Phase, tables: seq<TableName>, t: TableName)
    requires Runnable(db, helper, schema, tables) && t in tables && ApplyAll(db, helper, schema, phase, tables).Done?
    ensures t in schema && schema[t].primaryKey != []
  {
    var n := |tables| - 1;
    if t != tables[n] {
      assert tables == tables[..n] + [tables[n]];
      AppliedHasKeys(db, helper, schema, phase, tables[..n], t);
    }
  }

  lemma SucceededHasKeys(db: Database, helper: Database, schema: ValidatedSchema, order: ReconcileOrder)
    requires db.Keys <= schema.Keys && Plans(order, db, schema)
    requires Runnable(db, helper, schema, order.upsertOrder) && Runnable(db, helper, schema, order.deleteOrder)
    requires Pass(db, helper, schema, order).Done?
    ensures forall t :: t in db ==> schema[t].primaryKey != []
  {
    forall t | t in db
      ensures schema[t].primaryKey != []
    {
      assert t in Listed(order.upsertOrder);
      AppliedHasKeys(db, helper, schema, Upsert, order.upsertOrder, t);
    }
  }

  lemma SucceededIsConsistent(db: Database, helper: Database, schema: ValidatedSchema, order: ReconcileOrder)
    requires WellFormed(schema, db) && Consistent(db, schema)
    requires Runnable(db, helper, schema, order.upsertOrder) && Runnable(db, helper, schema, order.deleteOrder)
    ensures var r := Pass(db, helper, schema, order); r.Done? ==> Consistent(r.db, schema)
  {
    var upserted := ApplyAll(db, helper, schema, Upsert, order.upsertOrder);
    hide WellFormed, Consistent, ApplyStatement;
    StatementsKeep(db, helper, schema, Upsert, order.upsertOrder);
    if upserted.Done? {
      StatementsKeep(upserted.db, helper, schema, Delete, order.deleteOrder);
    }
  }

  lemma AllUpsertsSucceed(db: Database, helper: Database, schema: ValidatedSchema, tables: seq<TableName>)
    requires Ready(db, helper, schema) && Consistent(db, schema) && Closed(helper, schema)
    requires Runnable(db, helper, schema, tables) && ParentsListed(tables, db, schema) && Listed(tables) == db.Keys
    requires forall t :: t in db ==> schema[t].primaryKey != []
    ensures ApplyAll(db, helper, schema, Upsert, tables) == Done(DeletedIn(db, helper, schema, {}))
  {
    assert UpsertedIn(db, helper, schema, db.Keys) == DeletedIn(db, helper, schema, {});
    hide UpsertedIn, DeletedIn, ApplyAll, Consistent, Closed;
    UpsertsSucceed(db, helper, schema, tables, |tables|);
    assert tables[..|tables|] == tables;
  }

  lemma AllDeletesSucceed(db: Database, helper: Database, schema: ValidatedSchema, tables: seq<TableName>)
    requires Ready(db, helper, schema) && Closed(helper, schema)
    requires Runnable(db, helper, schema, tables) && ChildrenListed(tables, db, schema)
    requires forall t :: t in db ==> schema[t].primaryKey != []
    ensures ApplyAll(DeletedIn(db, helper, schema, {}), helper, schema, Delete, tables).Done?
    ensures !DeletesSpread(DeletedIn(db, helper, schema, {}), helper, schema, tables)
  {
    hide DeletedIn, ApplyAll, Closed, DeletesSpread;
    DeletesSucceed(db, helper, schema, tables, |tables|);
    assert tables[..|tables|] == tables;
  }

  /** Over closed helper tables a planned pass succeeds and no action spreads, whatever the actions are. */
  lemma ClosedSucceeds(db: Database, helper: Database, schema: ValidatedSchema, order: ReconcileOrder)
    requires Ready(db, helper, schema) && Consistent(db, schema) && Plans(order, db, schema)
    requires Runnable(db, helper, schema, order.upsertOrder) && Runnable(db, helper, schema, order.deleteOrder)
    requires (forall t :: t in db ==> schema[t].primaryKey != []) && Closed(helper, schema)
    ensures Pass(db, helper, schema, order).Done? && !PassSpreads(db, helper, schema, order)
  {
    AllUpsertsSucceed(db, helper, schema, order.upsertOrder);
    AllDeletesSucceed(db, helper, schema, order.deleteOrder);
    hide DeletedIn, Consistent, Closed, Ready, Plans, ApplyAll, DeletesSpread;
  }

  /** A planned pass over consistent real tables succeeds and makes them equal to the helper tables exactly when
      every table has a primary key and the helper tables are closed under the foreign keys.  A pass that succeeds
      keeps the foreign keys satisfied in any case; it makes the tables equal exactly when no ON DELETE action
      spread to a row of the helper tables. */
  lemma PassSucceeds(db: Database, helper: Database, schema: ValidatedSchema, order: ReconcileOrder)
    requires Ready(db, helper, schema) && Consistent(db, schema) && Plans(order, db, schema)
    requires Runnable(db, helper, schema, order.upsertOrder) && Runnable(db, helper, schema, order.deleteOrder)
    ensures var r := Pass(db, helper, schema, order);
      && (r == Done(ShownAll(helper, schema)) <==> (forall t :: t in db ==> schema[t].primaryKey != []) && Closed(helper, schema))
      && (r.Done? ==> Consistent(r.db, schema))
      && (r.Done? ==> (r.db == ShownAll(helper, schema) <==> !PassSpreads(db, helper, schema, order)))
  {
    assert db.Keys <= schema.Keys && helper.Keys <= schema.Keys && WellFormed(schema, db);
    assert Listed(order.upsertOrder) == db.Keys == Listed(order.deleteOrder);
    hide Ready, Consistent, Plans, Runnable, ShownAll, Pass, PassSpreads, WellFormed, Listed;
    var r := Pass(db, helper, schema, order);
    if r.Done? {
      SucceededHasKeys(db, helper, schema, order);
      SucceededIsConsistent(db, helper, schema, order);
      if !PassSpreads(db, helper, schema, order) {
        PassEqualizes(db, helper, schema, order);
      }
    }
    if (forall t :: t in db ==> schema[t].primaryKey != []) && Closed(helper, schema) {
      ClosedSucceeds(db, helper, schema, order);
      PassEqualizes(db, helper, schema, order);
    }
  }

  /** All foreign keys are NO ACTION or RESTRICT. */
  predicate Passive(schema: ValidatedSchema, db: Database)
    requires db.Keys <= schema.Keys
  {
    forall t, i :: t in db && 0 <= i < |schema[t].foreignKeys| ==> schema[t].foreignKeys[i].onDelete in {NoAction, Restrict}
  }

  lemma {:induction false} PassiveStays(db: Database, helper: Database, schema: ValidatedSchema, tables: seq<TableName>)
    requires Runnable(db, helper, schema, tables) && Passive(schema, db)
    ensures !DeletesSpread(db, helper, schema, tables)
  {
    if tables != [] {
      PassiveStays(db, helper, schema, tables[..|tables| - 1]);
    }
  }

  /** With such keys only, a planned pass succeeds exactly over closed helper tables. */
  lemma PassivePassSucceeds(db: Database, helper: Database, schema: ValidatedSchema, order: ReconcileOrder)
    requires Ready(db, helper, schema) && Consistent(db, schema) && Plans(order, db, schema) && Passive(schema, db)
    requires Runnable(db, helper, schema, order.upsertOrder) && Runnable(db, helper, schema, order.deleteOrder)
    ensures Pass(db, helper, schema, order).Done? <==>
      (forall t :: t in db ==> schema[t].primaryKey != []) && Closed(helper, schema)
  {
    var upserted := ApplyAll(db, helper, schema, Upsert, order.upsertOrder);
    if upserted.Done? {
      hide ApplyAll;
      PassiveStays(upserted.db, helper, schema, order.deleteOrder);
    }
    hide Ready, Consistent, Plans, Runnable, ShownAll, Pass;
    PassSucceeds(db, helper, schema, order);
  }

  lemma {:induction false} DeletesOnlyTake(
    db: Database, helper: Database, schema: ValidatedSchema, tables: seq<TableName>, t: TableName, k: Key)
    requires Runnable(db, helper, schema, tables) && t in db
    ensures var r := ApplyAll(db, helper, schema, Delete, tables);
      r.Done? && k in r.db[t] ==>
        k in db[t] && OnlyNulls(r.db[t][k], db[t][k], schema[t]) && (t in tables ==> t in helper && k in helper[t])
  {
    if tables != [] {
      var n := |tables| - 1;
      assert tables == tables[..n] + [tables[n]];
      DeletesOnlyTake(db, helper, schema, tables[..n], t, k);
      var before := ApplyAll(db, helper, schema, Delete, tables[..n]);
      hide DeleteStatement;
      if before.Done? {
        DeleteOnlyTakes(before.db, helper, schema, tables[n], t, k);
      }
    }
  }

  /** What a successful pass loses: a real row is a helper row, nullable columns of which may have become null.
      Nothing stays that the helper tables do not have. */
  lemma PassOnlyLoses(db: Database, helper: Database, schema: ValidatedSchema, order: ReconcileOrder, t: TableName, k: Key)
    requires Ready(db, helper, schema) && t in db
    requires Runnable(db, helper, schema, order.upsertOrder) && Runnable(db, helper, schema, order.deleteOrder)
    requires Listed(order.upsertOrder) == db.Keys == Listed(order.deleteOrder)
    ensures var r := Pass(db, helper, schema, order);
      r.Done? && k in r.db[t] ==> k in helper[t] && OnlyNulls(r.db[t][k], ShownAll(helper, schema)[t][k], schema[t])
  {
    var upserted := ApplyAll(db, helper, schema, Upsert, order.upsertOrder);
    if upserted.Done? {
      AllUpserted(db, helper, schema, order.upsertOrder);
      assert t in Listed(order.deleteOrder);
      hide ApplyAll, Ready;
      DeletesOnlyTake(upserted.db, helper, schema, order.deleteOrder, t, k);
    }
  }

  // ---- The planned order has parents first ----

  lemma {:induction false} PositionsFind(selected: seq<TableName>, t: TableName)
    requires t in selected
    ensures t in Positions(selected)
  {
    var n := |selected| - 1;
    if t != selected[n] {
      assert selected == selected[..n] + [selected[n]];
      PositionsFind(selected[..n], t);
    }
  }

  lemma {:induction false} EdgeOfKey(pos: map<TableName, nat>, foreignKeys: seq<ForeignKey>, c: nat, k: nat, j: nat)
    requires j < k <= |foreignKeys| && foreignKeys[j].referencedTable in pos
    ensures (pos[foreignKeys[j].referencedTable], c) in EdgesInto(pos, foreignKeys, c, k)
  {
    if j < k - 1 {
      EdgeOfKey(pos, foreignKeys, c, k - 1, j);
    }
  }

  lemma {:induction false} EdgesGrow(selected: seq<TableName>, schema: ValidatedSchema, c: nat, n: nat)
    requires c < n <= |selected| && forall i :: 0 <= i < n ==> selected[i] in schema
    ensures var fks := schema[selected[c]].foreignKeys;
      EdgesInto(Positions(selected), fks, c, |fks|) <= EdgesUpTo(selected, schema, n)
  {
    if c < n - 1 {
      EdgesGrow(selected, schema, c, n - 1);
    }
  }

  /** The table that a selected table references has been placed before it. */
  lemma PlacedAfterParent(selected: seq<TableName>, schema: ValidatedSchema, placed: seq<nat>, n: nat, i: nat)
    requires forall t :: t in selected ==> t in schema
    requires Below(placed, |selected|) && ParentsFirst(placed, GraphOf(selected, schema)) && n < |placed|
    requires i < |schema[selected[placed[n]]].foreignKeys|
    requires schema[selected[placed[n]]].foreignKeys[i].referencedTable in selected
    ensures schema[selected[placed[n]]].foreignKeys[i].referencedTable in Names(selected, placed)[..n]
  {
    var c := placed[n];
    var fks := schema[selected[c]].foreignKeys;
    var t := fks[i].referencedTable;
    PositionsFind(selected, t);
    var p := Positions(selected)[t];
    EdgeOfKey(Positions(selected), fks, c, |fks|, i);
    EdgesGrow(selected, schema, c, |selected|);
    assert (p, c) in GraphOf(selected, schema);
    assert p in Parents(GraphOf(selected, schema), c);
    assert p in ToSet(placed[..n]);
    var j :| 0 <= j < n && placed[j] == p;
    assert Names(selected, placed)[j] == t;
  }

  lemma {:induction false} ReverseLength<T>(s: seq<T>)
    ensures |Reverse(s)| == |s|
  {
    if s != [] {
      ReverseLength(s[1..]);
    }
  }

  lemma {:induction false} ReverseAt<T>(s: seq<T>, k: nat)
    requires k < |s|
    ensures |Reverse(s)| == |s| && Reverse(s)[|s| - 1 - k] == s[k]
  {
    ReverseLength(s);
    if |s| > 1 {
      ReverseAt(s[1..], if k == 0 then 0 else k - 1);
    }
  }

  lemma NamesDistinct(selected: seq<TableName>, placed: seq<nat>)
    requires forall i, j :: 0 <= i < j < |selected| ==> selected[i] != selected[j]
    requires NoDuplicates(placed) && Below(placed, |selected|)
    ensures var names := Names(selected, placed); forall i, j :: 0 <= i < j < |names| ==> names[i] != names[j]
  {
    var names := Names(selected, placed);
    forall i, j | 0 <= i < j < |names|
      ensures names[i] != names[j]
    {
      var p, q := placed[i], placed[j];
      if p < q {
        assert selected[p] != selected[q];
      } else {
        assert selected[q] != selected[p];
      }
    }
  }

  lemma NamesCover(selected: seq<TableName>, placed: seq<nat>)
    requires ToSet(placed) == UpTo(|selected|) && Below(placed, |selected|)
    ensures Listed(Names(selected, placed)) == Listed(selected)
  {
    var names := Names(selected, placed);
    forall t | t in selected
      ensures t in names
    {
      var p: nat :| p < |selected| && selected[p] == t;
      assert IsBelow(p, |selected|) && p in ToSet(placed);
      var i :| 0 <= i < |placed| && placed[i] == p;
      assert names[i] == t;
    }
    forall t | t in names
      ensures t in selected
    {
      var i :| 0 <= i < |names| && names[i] == t;
      assert selected[placed[i]] == t;
    }
  }

  /** Every table that a listed table references is listed before it. */
  ghost predicate ParentsBefore(names: seq<TableName>, schema: ValidatedSchema) {
    forall n, i :: 0 <= n < |names| && names[n] in schema && 0 <= i < |schema[names[n]].foreignKeys| ==>
      schema[names[n]].foreignKeys[i].referencedTable in names ==>
      schema[names[n]].foreignKeys[i].referencedTable in names[..n]
  }

  lemma UpsertOrderLists(names: seq<TableName>, db: Database, schema: ValidatedSchema)
    requires db.Keys <= schema.Keys && Listed(names) == db.Keys && ParentsBefore(names, schema)
    ensures ParentsListed(names, db, schema)
  {
    forall n, t, i | 0 <= n <= |names| && t in Listed(names[..n]) && t in db && 0 <= i < |schema[t].foreignKeys|
                     && schema[t].foreignKeys[i].referencedTable in db
      ensures schema[t].foreignKeys[i].referencedTable in Listed(names[..n])
    {
      var m :| 0 <= m < n && names[m] == t;
      var p := schema[t].foreignKeys[i].referencedTable;
      assert p in Listed(names);
      assert p in names[..m];
      var j :| 0 <= j < m && names[..m][j] == p;
      assert names[..n][j] == p;
    }
  }

  lemma DeleteOrderLists(names: seq<TableName>, db: Database, schema: ValidatedSchema)
    requires db.Keys <= schema.Keys && Listed(names) == db.Keys && ParentsBefore(names, schema)
    requires forall i, j :: 0 <= i < j < |names| ==> names[i] != names[j]
    ensures ChildrenListed(Reverse(names), db, schema) && Listed(Reverse(names)) == db.Keys
  {
    ReverseLength(names);
    hide ParentsBefore, ChildrenListed, Reverse;
    var reversed, len := Reverse(names), |names|;
    forall n | 0 <= n < len
      ensures reversed[n] == names[len - 1 - n]
    {
      ReverseAt(names, len - 1 - n);
    }
    ReversedLists(names, db, schema, reversed);
  }

  lemma ReversedLists(names: seq<TableName>, db: Database, schema: ValidatedSchema, reversed: seq<TableName>)
    requires db.Keys <= schema.Keys && Listed(names) == db.Keys && ParentsBefore(names, schema)
    requires forall i, j :: 0 <= i < j < |names| ==> names[i] != names[j]
    requires |reversed| == |names| && forall n :: 0 <= n < |names| ==> reversed[n] == names[|names| - 1 - n]
    ensures ChildrenListed(reversed, db, schema) && Listed(reversed) == db.Keys
  {
    var len := |names|;
    forall n | 0 <= n < len
      ensures reversed[n] !in reversed[..n] && ChildrenGone(reversed[n], Listed(reversed[..n]), db, schema)
    {
      forall child, i | child in db && 0 <= i < |schema[child].foreignKeys|
                        && schema[child].foreignKeys[i].referencedTable == reversed[n]
        ensures child in Listed(reversed[..n])
      {
        assert child in Listed(names);
        var m :| 0 <= m < len && names[m] == child;
        assert names[len - 1 - n] in names[..m];
        assert reversed[..n][len - 1 - m] == child;
      }
    }
    forall t | t in names
      ensures t in reversed
    {
      var m :| 0 <= m < len && names[m] == t;
      assert reversed[len - 1 - m] == t;
    }
    assert Listed(reversed) == Listed(names);
  }

  /** The order that from_schema plans for distinct selected tables satisfies what a pass needs of it. */
  lemma PlannedOrder(selected: seq<TableName>, schema: ValidatedSchema, order: ReconcileOrder, placed: seq<nat>, db: Database)
    requires forall t :: t in selected ==> t in schema
    requires forall i, j :: 0 <= i < j < |selected| ==> selected[i] != selected[j]
    requires PlannedAs(order, selected, placed, GraphOf(selected, schema))
    requires db.Keys == Listed(selected)
    ensures db.Keys <= schema.Keys && Plans(order, db, schema)
  {
    var names := order.upsertOrder;
    NamesDistinct(selected, placed);
    NamesCover(selected, placed);
    forall n, i | 0 <= n < |names| && 0 <= i < |schema[names[n]].foreignKeys|
                  && schema[names[n]].foreignKeys[i].referencedTable in names
      ensures schema[names[n]].foreignKeys[i].referencedTable in names[..n]
    {
      assert schema[names[n]].foreignKeys[i].referencedTable in Listed(names);
      PlacedAfterParent(selected, schema, placed, n, i);
    }
    UpsertOrderLists(names, db, schema);
    DeleteOrderLists(names, db, schema);
  }
}

/** The delete statement of a pass: the rows it removes itself, and what the ON DELETE actions of the foreign
    keys to them do to other rows. */
module Deletes {
  import opened HelperPlan
  import opened Options
  import opened Tables

  /** A row: its table and its key. */
  type RowId = (TableName, Key)

  predicate Has(db: Database, x: RowId) {
    x.0 in db && x.1 in db[x.0]
  }

  function AllRows(db: Database): (rows: set<RowId>)
    ensures forall x :: x in rows <==> Has(db, x)
  {
    set t, k | t in db && k in db[t] :: (t, k)
  }

  /** DELETE of the rows without a helper row of the same key. */
  function Deleted(rows: Rows, helper: Rows): Rows {
    map k | k in rows && k in helper :: rows[k]
  }

  /** The rows that the statement for t removes itself. */
  function Surplus(db: Database, helper: Database, t: TableName): (rows: set<RowId>)
    requires t in db && t in helper
    ensures forall x :: x in rows <==> x.0 == t && x.1 in db[t] && x.1 !in helper[t]
  {
    set k | k in db[t] && k !in helper[t] :: (t, k)
  }

  /** By its foreign key number i, row x references a row in gone. */
  predicate References(db: Database, schema: ValidatedSchema, x: RowId, i: nat, gone: set<RowId>)
    requires db.Keys <= schema.Keys
  {
    && Has(db, x) && i < |schema[x.0].foreignKeys|
    && var fk := schema[x.0].foreignKeys[i];
      && fk.referencedTable in db
      && exists r :: r in db[fk.referencedTable] && (fk.referencedTable, r) in gone && Matches(db[x.0][x.1], fk, db[fk.referencedTable][r])
  }

  /** ON DELETE CASCADE reaches row x. */
  predicate CascadesTo(db: Database, schema: ValidatedSchema, x: RowId, gone: set<RowId>)
    requires db.Keys <= schema.Keys
  {
    exists i :: 0 <= i < (if x.0 in schema then |schema[x.0].foreignKeys| else 0)
      && schema[x.0].foreignKeys[i].onDelete == Cascade && References(db, schema, x, i, gone)
  }

  /** The rows that go when those in gone go. */
  function Cascaded(db: Database, schema: ValidatedSchema, gone: set<RowId>): (all: set<RowId>)
    requires db.Keys <= schema.Keys && gone <= AllRows(db)
    ensures gone <= all <= AllRows(db)
    ensures forall x :: Has(db, x) && CascadesTo(db, schema, x, all) ==> x in all
    decreases AllRows(db) - gone
  {
    var reached := set x | x in AllRows(db) && x !in gone && CascadesTo(db, schema, x, gone);
    assert forall x :: Has(db, x) && CascadesTo(db, schema, x, gone) ==> x in gone || x in reached;
    if reached == {} then gone else Cascaded(db, schema, gone + reached)
  }

  /** They are the fewest: any rows that contain gone and all that cascading reaches from them contain these. */
  lemma {:induction false} CascadedIsLeast(db: Database, schema: ValidatedSchema, gone: set<RowId>, closed: set<RowId>)
    requires db.Keys <= schema.Keys && gone <= AllRows(db) && gone <= closed
    requires forall x :: Has(db, x) && CascadesTo(db, schema, x, closed) ==> x in closed
    ensures Cascaded(db, schema, gone) <= closed
    decreases AllRows(db) - gone
  {
    var reached := set x | x in AllRows(db) && x !in gone && CascadesTo(db, schema, x, gone);
    forall x | x in reached
      ensures x in closed
    {
      var i :| 0 <= i < (if x.0 in schema then |schema[x.0].foreignKeys| else 0)
        && schema[x.0].foreignKeys[i].onDelete == Cascade && References(db, schema, x, i, gone);
      assert References(db, schema, x, i, closed);
      assert CascadesTo(db, schema, x, closed);
    }
    if reached != {} {
      CascadedIsLeast(db, schema, gone + reached, closed);
    }
  }

  /** The columns of row x that ON DELETE SET NULL empties. */
  function NullColumns(db: Database, schema: ValidatedSchema, x: RowId, gone: set<RowId>): set<Column>
    requires db.Keys <= schema.Keys && x.0 in schema
  {
    set i, c | 0 <= i < |schema[x.0].foreignKeys| && c in schema[x.0].foreignKeys[i].columns
      && schema[x.0].foreignKeys[i].onDelete == SetNull && References(db, schema, x, i, gone) :: c
  }

  function Emptied(row: Row, columns: set<Column>): Row {
    map c | c in row :: if c in columns then Null else row[c]
  }

  /** What is left without the rows in gone. */
  function Without(db: Database, schema: ValidatedSchema, gone: set<RowId>): (r: Database)
    requires db.Keys <= schema.Keys
    ensures r.Keys == db.Keys
  {
    map t | t in db :: map k | k in db[t] && (t, k) !in gone :: Emptied(db[t][k], NullColumns(db, schema, (t, k), gone))
  }

  /** Row x stays but may not: it would still reference a row that goes (ON DELETE NO ACTION and RESTRICT), or lose
      the value of a NOT NULL column. */
  predicate Objects(db: Database, schema: ValidatedSchema, x: RowId, gone: set<RowId>)
    requires db.Keys <= schema.Keys && x.0 in schema
  {
    || (exists i :: 0 <= i < |schema[x.0].foreignKeys| && References(db, schema, x, i, gone)
          && forall c :: c in schema[x.0].foreignKeys[i].columns ==> c !in NullColumns(db, schema, x, gone))
    || exists c :: c in NullColumns(db, schema, x, gone) && c !in schema[x.0].nullable
  }

  predicate Refused(db: Database, schema: ValidatedSchema, gone: set<RowId>)
    requires db.Keys <= schema.Keys
  {
    exists x :: x in AllRows(db) && x !in gone && Objects(db, schema, x, gone)
  }

  /** The whole statement: nothing if it fails. */
  function DeleteStatement(db: Database, helper: Database, schema: ValidatedSchema, t: TableName): (r: Option<Database>)
    requires db.Keys <= schema.Keys && t in db && t in helper
    ensures r.Some? ==> r.value.Keys == db.Keys
  {
    var gone := Cascaded(db, schema, Surplus(db, helper, t));
    if Refused(db, schema, gone) then None else Some(Without(db, schema, gone))
  }

  // ---- When no action matters ----

  /** A row that the delete statement removes is still referenced: an ON DELETE action fires. */
  predicate DeleteFires(db: Database, helper: Database, schema: ValidatedSchema, t: TableName)
    requires db.Keys <= schema.Keys && t in db && t in helper
  {
    exists x, i :: x in AllRows(db) && 0 <= i < |schema[x.0].foreignKeys| && References(db, schema, x, i, Surplus(db, helper, t))
  }

  /** An ON DELETE action removes or empties another row. */
  predicate DeleteSpreads(db: Database, helper: Database, schema: ValidatedSchema, t: TableName)
    requires db.Keys <= schema.Keys && t in db && t in helper
  {
    exists x, i :: x in AllRows(db) && x !in Surplus(db, helper, t) && 0 <= i < |schema[x.0].foreignKeys|
      && schema[x.0].foreignKeys[i].onDelete in {Cascade, SetNull} && References(db, schema, x, i, Surplus(db, helper, t))
  }

  lemma SurplusGoesAlone(db: Database, helper: Database, schema: ValidatedSchema, t: TableName)
    requires db.Keys <= schema.Keys && t in db && t in helper && !DeleteSpreads(db, helper, schema, t)
    ensures Cascaded(db, schema, Surplus(db, helper, t)) == Surplus(db, helper, t)
    ensures forall x :: x in AllRows(db) && x !in Surplus(db, helper, t) ==>
      NullColumns(db, schema, x, Surplus(db, helper, t)) == {}
  {
    var gone := Surplus(db, helper, t);
    forall x | x in AllRows(db) && x !in gone
      ensures !CascadesTo(db, schema, x, gone) && NullColumns(db, schema, x, gone) == {}
    {
      hide References;
    }
  }

  lemma EmptiedOfNothing(row: Row)
    ensures Emptied(row, {}) == row
  {
  }

  /** A delete statement whose actions do not spread removes the surplus rows and nothing else. */
  lemma PlainDelete(db: Database, helper: Database, schema: ValidatedSchema, t: TableName)
    requires db.Keys <= schema.Keys && t in db && t in helper && !DeleteSpreads(db, helper, schema, t)
    ensures var r := DeleteStatement(db, helper, schema, t);
      && (r.Some? ==> r.value == db[t := Deleted(db[t], helper[t])])
      && (!DeleteFires(db, helper, schema, t) ==> r.Some?)
  {
    SurplusGoesAlone(db, helper, schema, t);
    var gone := Surplus(db, helper, t);
    hide Cascaded, NullColumns, References, Matches, DeleteSpreads, Emptied;
    var after := Without(db, schema, gone);
    forall u, k | u in db && k in db[u] && (u, k) !in gone
      ensures after[u][k] == db[u][k]
    {
      assert (u, k) in AllRows(db);
      EmptiedOfNothing(db[u][k]);
    }
    forall u | u in db
      ensures after[u] == if u == t then Deleted(db[u], helper[u]) else db[u]
    {
    }
    assert after == db[t := Deleted(db[t], helper[t])];
  }

  // ---- What every delete statement keeps ----

  /** A column is emptied only in rows that have a value there. */
  lemma EmptiedIsThere(db: Database, schema: ValidatedSchema, x: RowId, gone: set<RowId>, c: Column)
    requires db.Keys <= schema.Keys && Has(db, x) && c in NullColumns(db, schema, x, gone)
    ensures c in db[x.0][x.1]
  {
    var i :| 0 <= i < |schema[x.0].foreignKeys| && c in schema[x.0].foreignKeys[i].columns
      && schema[x.0].foreignKeys[i].onDelete == SetNull && References(db, schema, x, i, gone);
    var j :| 0 <= j < |schema[x.0].foreignKeys[i].columns| && schema[x.0].foreignKeys[i].columns[j] == c;
  }

  lemma StillMatches(row: Row, fk: ForeignKey, parent: Row, own: set<Column>, parents: set<Column>)
    requires Matches(row, fk, parent)
    requires (forall c :: c in fk.columns ==> c !in own) && forall c :: c in fk.referencedColumns ==> c !in parents
    ensures Matches(Emptied(row, own), fk, Emptied(parent, parents))
  {
    forall i | 0 <= i < |fk.columns|
      ensures fk.columns[i] !in own && fk.referencedColumns[i] !in parents
    {
      assert fk.columns[i] in fk.columns && fk.referencedColumns[i] in fk.referencedColumns;
    }
  }

  lemma ReferencedStays(db: Database, schema: ValidatedSchema, gone: set<RowId>, x: RowId, i: nat, r: Key)
    requires db.Keys <= schema.Keys && Has(db, x) && i < |schema[x.0].foreignKeys| && !Objects(db, schema, x, gone)
    requires forall c :: c in schema[x.0].foreignKeys[i].columns ==> c !in NullColumns(db, schema, x, gone)
    requires var fk := schema[x.0].foreignKeys[i];
      fk.referencedTable in db && r in db[fk.referencedTable] && Matches(db[x.0][x.1], fk, db[fk.referencedTable][r])
    ensures (schema[x.0].foreignKeys[i].referencedTable, r) !in gone
  {
    assert !References(db, schema, x, i, gone);
  }

  /** A row that stays without objection has kept the row it references, or no longer references any. */
  lemma StaysSatisfied(db: Database, schema: ValidatedSchema, gone: set<RowId>, x: RowId, i: nat)
    requires WellFormed(schema, db) && !Refused(db, schema, gone)
    requires Has(db, x) && x !in gone && i < |schema[x.0].foreignKeys|
    requires var p := schema[x.0].foreignKeys[i].referencedTable; p in db && RowSatisfies(db[x.0][x.1], schema[x.0].foreignKeys[i], db[p])
    ensures var fk := schema[x.0].foreignKeys[i];
      RowSatisfies(Emptied(db[x.0][x.1], NullColumns(db, schema, x, gone)), fk, Without(db, schema, gone)[fk.referencedTable])
  {
    var fk, row, own := schema[x.0].foreignKeys[i], db[x.0][x.1], NullColumns(db, schema, x, gone);
    assert x in AllRows(db) && !Objects(db, schema, x, gone);
    hide WellFormed, Refused, Objects, NullColumns, Matches, Emptied;
    if c :| c in fk.columns && c in own {
      EmptiedIsThere(db, schema, x, gone, c);
      EmptiedHasNull(row, fk, own, c);
    } else if HasNull(row, fk) {
      NullsStay(row, fk, own);
    } else {
      hide Emptied, HasNull;
      ParentStays(db, schema, gone, x, i);
    }
  }

  lemma EmptiedHasNull(row: Row, fk: ForeignKey, own: set<Column>, c: Column)
    requires c in fk.columns && c in own && c in row
    ensures HasNull(Emptied(row, own), fk)
  {
    var j :| 0 <= j < |fk.columns| && fk.columns[j] == c;
  }

  lemma NullsStay(row: Row, fk: ForeignKey, own: set<Column>)
    requires HasNull(row, fk)
    ensures HasNull(Emptied(row, own), fk)
  {
    var j :| 0 <= j < |fk.columns| && fk.columns[j] in row && row[fk.columns[j]] == Null;
    assert Emptied(row, own)[fk.columns[j]] == Null;
  }

  lemma ParentStays(db: Database, schema: ValidatedSchema, gone: set<RowId>, x: RowId, i: nat)
    requires WellFormed(schema, db) && !Refused(db, schema, gone)
    requires Has(db, x) && x !in gone && i < |schema[x.0].foreignKeys|
    requires var fk := schema[x.0].foreignKeys[i];
      fk.referencedTable in db && Referenced(db[x.0][x.1], fk, db[fk.referencedTable])
    requires forall c :: c in schema[x.0].foreignKeys[i].columns ==> c !in NullColumns(db, schema, x, gone)
    ensures var fk := schema[x.0].foreignKeys[i];
      Referenced(Emptied(db[x.0][x.1], NullColumns(db, schema, x, gone)), fk, Without(db, schema, gone)[fk.referencedTable])
  {
    var fk, row := schema[x.0].foreignKeys[i], db[x.0][x.1];
    var p := fk.referencedTable;
    assert x in AllRows(db) && !Objects(db, schema, x, gone);
    var r :| r in db[p] && Matches(row, fk, db[p][r]);
    ReferencedStays(db, schema, gone, x, i, r);
    assert (p, r) in AllRows(db) && !Objects(db, schema, (p, r), gone);
    assert KeyToPrimary(schema, db, x.0, fk);
    hide Objects, Refused, NullColumns, Matches, References;
    var parents := NullColumns(db, schema, (p, r), gone);
    StillMatches(row, fk, db[p][r], NullColumns(db, schema, x, gone), parents);
    assert Without(db, schema, gone)[p][r] == Emptied(db[p][r], parents);
  }

  /** Whatever its actions remove and empty, a delete statement that succeeds keeps all foreign keys satisfied. */
  lemma DeleteKeeps(db: Database, helper: Database, schema: ValidatedSchema, t: TableName)
    requires WellFormed(schema, db) && Consistent(db, schema) && t in db && t in helper
    ensures var r := DeleteStatement(db, helper, schema, t); r.Some? ==> Consistent(r.value, schema)
  {
    var gone := Cascaded(db, schema, Surplus(db, helper, t));
    if !Refused(db, schema, gone) {
      var after := Without(db, schema, gone);
      hide WellFormed, Refused, NullColumns, RowSatisfies, Emptied, Cascaded;
      forall u, i, k | u in after && 0 <= i < |schema[u].foreignKeys| && k in after[u]
                       && schema[u].foreignKeys[i].referencedTable in after
        ensures RowSatisfies(after[u][k], schema[u].foreignKeys[i], after[schema[u].foreignKeys[i].referencedTable])
      {
        StaysSatisfied(db, schema, gone, (u, k), i);
      }
    }
  }

  lemma EmptiedIsReal(row: Row, k: Key, s: TableSchema, columns: set<Column>)
    requires RealRow(row, k, s) && (forall c :: c in s.primaryKey ==> c !in s.nullable)
    requires forall c :: c in columns ==> c in s.nullable
    ensures RealRow(Emptied(row, columns), k, s)
  {
    assert KeyOf(Emptied(row, columns), s.primaryKey) == KeyOf(row, s.primaryKey);
  }

  /** It keeps rows under their primary keys and NOT NULL columns filled. */
  lemma DeleteKeepsReal(db: Database, helper: Database, schema: ValidatedSchema, t: TableName, u: TableName)
    requires WellFormed(schema, db) && t in db && t in helper && u in db && RealRows(db[u], schema[u])
    ensures var r := DeleteStatement(db, helper, schema, t); r.Some? ==> RealRows(r.value[u], schema[u])
  {
    var gone := Cascaded(db, schema, Surplus(db, helper, t));
    if !Refused(db, schema, gone) {
      var after := Without(db, schema, gone);
      forall k | k in after[u]
        ensures RealRow(after[u][k], k, schema[u])
      {
        assert (u, k) in AllRows(db) && !Objects(db, schema, (u, k), gone);
        hide References, NullColumns, RealRow, Cascaded, Refused;
        EmptiedIsReal(db[u][k], k, schema[u], NullColumns(db, schema, (u, k), gone));
      }
    }
  }

  /** The same row, some nullable columns of which may have become null. */
  predicate OnlyNulls(after: Row, before: Row, s: TableSchema) {
    after.Keys == before.Keys && forall c :: c in after ==> after[c] == before[c] || (after[c] == Null && c in s.nullable)
  }

  /** It takes away rows and empties columns and does nothing else; the surplus is gone afterwards. */
  lemma DeleteOnlyTakes(db: Database, helper: Database, schema: ValidatedSchema, t: TableName, u: TableName, k: Key)
    requires db.Keys <= schema.Keys && t in db && t in helper && u in db
    ensures var r := DeleteStatement(db, helper, schema, t);
      r.Some? && k in r.value[u] ==>
        k in db[u] && OnlyNulls(r.value[u][k], db[u][k], schema[u]) && (u == t ==> k in helper[t])
  {
    var gone := Cascaded(db, schema, Surplus(db, helper, t));
    if !Refused(db, schema, gone) && k in Without(db, schema, gone)[u] {
      hide NullColumns, Cascaded, References;
      assert (u, k) in AllRows(db) && !Objects(db, schema, (u, k), gone);
      assert Without(db, schema, gone)[u][k] == Emptied(db[u][k], NullColumns(db, schema, (u, k), gone));
    }
  }
}

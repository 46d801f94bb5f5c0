/** Rows, tables and foreign keys of the destination database. */
module Tables {
  import opened HelperPlan

  datatype Value = Null | Val(v: int)

  type Key = seq<Value>
  type Row = map<Column, Value>

  /** The rows of a table by primary key. */
  type Rows = map<Key, Row>
  type Database = map<TableName, Rows>

  function Writable(s: TableSchema): set<Column> {
    set c | c in s.columns && c !in s.generated
  }

  function KeyOf(row: Row, primaryKey: seq<Column>): Key
    requires forall c :: c in primaryKey ==> c in row
  {
    seq(|primaryKey|, i requires 0 <= i < |primaryKey| => row[primaryKey[i]])
  }

  function Narrowed(row: Row, columns: set<Column>): Row {
    map c | c in row && c in columns :: row[c]
  }

  // ---- Foreign keys ----

  predicate Matches(row: Row, fk: ForeignKey, parent: Row) {
    && |fk.columns| == |fk.referencedColumns|
    && forall i :: 0 <= i < |fk.columns| ==>
         && fk.columns[i] in row && fk.referencedColumns[i] in parent
         && row[fk.columns[i]] != Null && row[fk.columns[i]] == parent[fk.referencedColumns[i]]
  }

  /** MATCH SIMPLE: a row with a null in its foreign key references nothing. */
  predicate HasNull(row: Row, fk: ForeignKey) {
    exists i :: 0 <= i < |fk.columns| && fk.columns[i] in row && row[fk.columns[i]] == Null
  }

  predicate Referenced(row: Row, fk: ForeignKey, parents: Rows) {
    exists p :: p in parents && Matches(row, fk, parents[p])
  }

  predicate RowSatisfies(row: Row, fk: ForeignKey, parents: Rows) {
    HasNull(row, fk) || Referenced(row, fk, parents)
  }

  /** Every row of a table satisfies the table's foreign keys to the other tables. */
  predicate TableSatisfies(rows: Rows, foreignKeys: seq<ForeignKey>, db: Database) {
    forall i, k :: 0 <= i < |foreignKeys| && k in rows && foreignKeys[i].referencedTable in db ==>
      RowSatisfies(rows[k], foreignKeys[i], db[foreignKeys[i].referencedTable])
  }

  predicate Consistent(db: Database, schema: ValidatedSchema)
    requires db.Keys <= schema.Keys
  {
    forall t :: t in db ==> TableSatisfies(db[t], schema[t].foreignKeys, db)
  }

  // ---- Well-formed schemas and tables ----

  /** A foreign key to a selected table references that table's primary key. */
  ghost predicate KeyToPrimary(schema: ValidatedSchema, db: Database, t: TableName, fk: ForeignKey)
    requires db.Keys <= schema.Keys && t in db
  {
    fk.referencedTable in db ==>
      && |fk.columns| == |fk.referencedColumns|
      && (forall c :: c in fk.columns ==> c in Writable(schema[t]))
      && (forall c :: c in fk.referencedColumns <==> c in schema[fk.referencedTable].primaryKey)
  }

  ghost predicate WellFormed(schema: ValidatedSchema, db: Database) {
    && db.Keys <= schema.Keys
    && (forall t, c :: t in db && c in schema[t].primaryKey ==> c in Writable(schema[t]) && c !in schema[t].nullable)
    && forall t, i :: t in db && 0 <= i < |schema[t].foreignKeys| ==> KeyToPrimary(schema, db, t, schema[t].foreignKeys[i])
  }

  /** NOT NULL columns. */
  predicate NullsAllowed(row: Row, s: TableSchema) {
    forall c :: c in row && c in Writable(s) && c !in s.nullable ==> row[c] != Null
  }

  /** Real rows, seen in their writable columns, are filed under their primary key. */
  ghost predicate RealRow(row: Row, k: Key, s: TableSchema) {
    && row.Keys == Writable(s) && NullsAllowed(row, s)
    && (forall c :: c in s.primaryKey ==> c in row) && KeyOf(row, s.primaryKey) == k
  }

  ghost predicate RealRows(rows: Rows, s: TableSchema) {
    forall k :: k in rows ==> RealRow(rows[k], k, s)
  }

  /** A helper row carries all columns of the table. */
  ghost predicate HelperRow(row: Row, k: Key, s: TableSchema) {
    && Writable(s) <= row.Keys && NullsAllowed(row, s)
    && (forall c :: c in s.primaryKey ==> c in row) && KeyOf(row, s.primaryKey) == k
  }

  ghost predicate HelperRows(rows: Rows, s: TableSchema) {
    forall k :: k in rows ==> HelperRow(rows[k], k, s)
  }

  /** The state in which a pass runs: the selected tables, on both sides. */
  ghost predicate Ready(db: Database, helper: Database, schema: ValidatedSchema) {
    && db.Keys == helper.Keys && WellFormed(schema, db)
    && forall t :: t in db ==> RealRows(db[t], schema[t]) && HelperRows(helper[t], schema[t])
  }

  /** A helper table as a real table would show it. */
  function Shown(helper: Rows, s: TableSchema): Rows {
    map k | k in helper :: Narrowed(helper[k], Writable(s))
  }

  function ShownAll(helper: Database, schema: ValidatedSchema): Database
    requires helper.Keys <= schema.Keys
  {
    map t | t in helper :: Shown(helper[t], schema[t])
  }

  /** The helper tables satisfy the foreign keys among themselves. */
  predicate Closed(helper: Database, schema: ValidatedSchema)
    requires helper.Keys <= schema.Keys
  {
    Consistent(ShownAll(helper, schema), schema)
  }

  // ---- Keys of rows ----

  lemma SameKeySameColumns(a: Row, b: Row, primaryKey: seq<Column>)
    requires forall c :: c in primaryKey ==> c in a && c in b
    requires KeyOf(a, primaryKey) == KeyOf(b, primaryKey)
    ensures forall c :: c in primaryKey ==> a[c] == b[c]
  {
    forall c | c in primaryKey
      ensures a[c] == b[c]
    {
      var i :| 0 <= i < |primaryKey| && primaryKey[i] == c;
      assert KeyOf(a, primaryKey)[i] == a[c] && KeyOf(b, primaryKey)[i] == b[c];
    }
  }

  /** Two rows that match the same reference to a primary key are the same row. */
  lemma MatchesOnce(row: Row, fk: ForeignKey, a: Row, j: Key, b: Row, k: Key, s: TableSchema)
    requires Matches(row, fk, a) && Matches(row, fk, b) && RealRow(a, j, s) && RealRow(b, k, s)
    requires forall c :: c in s.primaryKey ==> c in fk.referencedColumns
    ensures j == k
  {
    forall c | c in s.primaryKey
      ensures a[c] == b[c]
    {
      var i :| 0 <= i < |fk.referencedColumns| && fk.referencedColumns[i] == c;
    }
    assert KeyOf(a, s.primaryKey) == KeyOf(b, s.primaryKey);
  }
}

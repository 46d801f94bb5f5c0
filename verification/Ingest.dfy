/** Webhook batches: how they are routed to a helper table and what persisting them does to it. */
module Ingest {
  import opened HelperPlan
  import opened Options
  import opened Tables
  import opened Reconcile

  type JsonObject = map<Column, Value>

  datatype Operation = UpsertRow | DeleteRow

  datatype RowKey = Named(key: JsonObject) | Positional(values: seq<Value>)

  datatype RowEvent = RowEvent(database: string, table: TableName, operation: Operation, key: RowKey, values: Option<JsonObject>)

  /** A mutation whose key names its columns. */
  datatype Change = Change(operation: Operation, key: JsonObject, values: Option<JsonObject>)

  /** A source database and, by source table, the helper tables: they have the source table's columns. */
  datatype Mapping = Mapping(sourceDatabase: string, helpers: map<TableName, TableSchema>)

  datatype RoutingError =
    | SourceDatabaseMismatch(database: string)
    | SourceTableNotMapped(table: TableName)
    | MixedSourceTables(first: TableName, second: TableName)
    | EmptyRowBatch
    | InvalidPrimaryKeyCount(expected: nat, actual: nat)

  datatype Routed = Batch(table: TableName, rows: seq<Change>) | Rejected(error: RoutingError)

  // ---- Routing ----

  predicate BelongsTo(event: RowEvent, mapping: Mapping, table: TableName) {
    event.database == mapping.sourceDatabase && event.table == table && table in mapping.helpers
  }

  predicate KeyCounts(event: RowEvent, primaryKey: seq<Column>) {
    event.key.Positional? ==> |event.key.values| == |primaryKey|
  }

  function NameColumns(primaryKey: seq<Column>, values: seq<Value>): JsonObject
    requires |values| == |primaryKey|
  {
    if values == [] then map[]
    else NameColumns(primaryKey[..|values| - 1], values[..|values| - 1])[primaryKey[|values| - 1] := values[|values| - 1]]
  }

  function Normalized(event: RowEvent, primaryKey: seq<Column>): Change
    requires KeyCounts(event, primaryKey)
  {
    var key := match event.key case Named(key) => key case Positional(values) => NameColumns(primaryKey, values);
    Change(event.operation, key, event.values)
  }

  function ValueOf(json: JsonObject, column: Column): Value {
    if column in json then json[column] else Null
  }

  /** The key that a JSON object addresses: columns it does not have are null. */
  function Addressed(json: JsonObject, primaryKey: seq<Column>): Key {
    seq(|primaryKey|, i requires 0 <= i < |primaryKey| => ValueOf(json, primaryKey[i]))
  }

  lemma {:induction false} NameColumnsAt(primaryKey: seq<Column>, values: seq<Value>, i: nat)
    requires |values| == |primaryKey| && i < |primaryKey|
    requires forall a, b :: 0 <= a < b < |primaryKey| ==> primaryKey[a] != primaryKey[b]
    ensures ValueOf(NameColumns(primaryKey, values), primaryKey[i]) == values[i]
  {
    var n := |values| - 1;
    if i < n {
      NameColumnsAt(primaryKey[..n], values[..n], i);
    }
  }

  /** A positional key addresses the row whose primary key has those values in that order. */
  lemma PositionalAddresses(event: RowEvent, primaryKey: seq<Column>)
    requires KeyCounts(event, primaryKey) && event.key.Positional?
    requires forall a, b :: 0 <= a < b < |primaryKey| ==> primaryKey[a] != primaryKey[b]
    ensures Addressed(Normalized(event, primaryKey).key, primaryKey) == event.key.values
  {
    forall i | 0 <= i < |primaryKey|
      ensures Addressed(Normalized(event, primaryKey).key, primaryKey)[i] == event.key.values[i]
    {
      NameColumnsAt(primaryKey, event.key.values, i);
    }
  }

  /** A batch is accepted exactly when it has events, all of one mapped table of the mapping's source database,
      with well-counted keys; otherwise the error names the first event that breaks this. */
  ghost predicate RoutedAs(r: Routed, mapping: Mapping, events: seq<RowEvent>) {
    match r
    case Batch(table, rows) =>
      && events != [] && |rows| == |events| && table in mapping.helpers
      && forall i :: 0 <= i < |events| ==>
           && BelongsTo(events[i], mapping, table) && KeyCounts(events[i], mapping.helpers[table].primaryKey)
           && rows[i] == Normalized(events[i], mapping.helpers[table].primaryKey)
    case Rejected(EmptyRowBatch) => events == []
    case Rejected(error) => exists i :: 0 <= i < |events| && Offends(error, mapping, events, i)
  }

  /** Event i is the first offender, and this is its offence. */
  ghost predicate Offends(error: RoutingError, mapping: Mapping, events: seq<RowEvent>, i: nat)
    requires i < |events|
  {
    match error
    case SourceDatabaseMismatch(database) => AllBelong(mapping, events, i) && events[i].database == database != mapping.sourceDatabase
    case SourceTableNotMapped(table) =>
      && AllBelong(mapping, events, i) && events[i].database == mapping.sourceDatabase
      && events[i].table == table && table !in mapping.helpers
    case MixedSourceTables(first, second) =>
      && AllBelong(mapping, events, i) && events[i].database == mapping.sourceDatabase
      && events[i].table == second && second in mapping.helpers && first == events[0].table && first != second
    case InvalidPrimaryKeyCount(expected, actual) =>
      && AllBelong(mapping, events, |events|)
      && (forall j :: 0 <= j < i ==> KeyCounts(events[j], mapping.helpers[events[0].table].primaryKey))
      && expected == |mapping.helpers[events[0].table].primaryKey|
      && events[i].key.Positional? && actual == |events[i].key.values| && actual != expected
    case EmptyRowBatch => false
  }

  ghost predicate AllBelong(mapping: Mapping, events: seq<RowEvent>, n: nat)
    requires n <= |events|
  {
    forall j :: 0 <= j < n ==> BelongsTo(events[j], mapping, events[0].table)
  }

  method RouteRowBatch(mapping: Mapping, events: seq<RowEvent>) returns (r: Routed)
    ensures RoutedAs(r, mapping, events)
  {
    var selected: Option<TableName> := None;
    var i := 0;
    while i < |events|
      invariant 0 <= i <= |events| && AllBelong(mapping, events, i)
      invariant selected == if i == 0 then None else Some(events[0].table)
    {
      var event := events[i];
      if event.database != mapping.sourceDatabase {
        r := Rejected(SourceDatabaseMismatch(event.database));
        assert Offends(r.error, mapping, events, i);
        return;
      }
      if event.table !in mapping.helpers {
        r := Rejected(SourceTableNotMapped(event.table));
        assert Offends(r.error, mapping, events, i);
        return;
      }
      if selected.Some? {
        if selected.value != event.table {
          r := Rejected(MixedSourceTables(selected.value, event.table));
          assert Offends(r.error, mapping, events, i);
          return;
        }
      } else {
        selected := Some(event.table);
      }
      i := i + 1;
    }
    if selected.None? {
      return Rejected(EmptyRowBatch);
    }
    r := NormalizeAll(mapping, events, selected.value);
  }

  method NormalizeAll(mapping: Mapping, events: seq<RowEvent>, table: TableName) returns (r: Routed)
    requires events != [] && AllBelong(mapping, events, |events|) && table == events[0].table
    ensures RoutedAs(r, mapping, events)
  {
    assert BelongsTo(events[0], mapping, table);
    var primaryKey := mapping.helpers[table].primaryKey;
    var rows: seq<Change> := [];
    var i := 0;
    while i < |events|
      invariant 0 <= i <= |events| && |rows| == i
      invariant forall j :: 0 <= j < i ==> KeyCounts(events[j], primaryKey) && rows[j] == Normalized(events[j], primaryKey)
    {
      if !KeyCounts(events[i], primaryKey) {
        r := Rejected(InvalidPrimaryKeyCount(|primaryKey|, |events[i].key.values|));
        assert Offends(r.error, mapping, events, i);
        return;
      }
      rows := rows + [Normalized(events[i], primaryKey)];
      i := i + 1;
    }
    r := Batch(table, rows);
  }

  // ---- Persisting ----

  /** The rows of a helper table: by key if it has a primary key, else as they come. */
  datatype Contents = Contents(keyed: Rows, heap: multiset<Row>)

  datatype PersistError = MissingValues | MissingPrimaryKey | ApplyMutation

  datatype Persisted = Ok(contents: Contents) | Error(error: PersistError)

  /** jsonb_populate_record: every column of the table, null where the object has none. */
  function Populated(json: JsonObject, s: TableSchema): Row {
    map c | c in s.columns :: ValueOf(json, c)
  }

  /** Primary-key columns are columns and not nullable. */
  predicate HelperShape(table: TableSchema) {
    forall c :: c in table.primaryKey ==> c in table.columns && c !in table.nullable
  }

  /** The reason why a mutation fails whatever the table holds. */
  function Refused(table: TableSchema, change: Change): Option<PersistError> {
    if change.operation == DeleteRow then if table.primaryKey == [] then Some(MissingPrimaryKey) else None
    else if change.values.None? then Some(MissingValues)
    else if exists c :: c in table.columns && c !in table.nullable && ValueOf(change.values.value, c) == Null then Some(ApplyMutation)
    else None
  }

  function Mutated(table: TableSchema, contents: Contents, change: Change): Contents
    requires HelperShape(table) && Refused(table, change).None?
  {
    var primaryKey := table.primaryKey;
    if change.operation == DeleteRow then contents.(keyed := contents.keyed - {Addressed(change.key, primaryKey)})
    else
      var row := Populated(change.values.value, table);
      if primaryKey == [] then contents.(heap := contents.heap + multiset{row})
      else contents.(keyed := contents.keyed[KeyOf(row, primaryKey) := row])
  }

  function ApplyChange(table: TableSchema, contents: Contents, change: Change): Persisted
    requires HelperShape(table)
  {
    match Refused(table, change)
    case Some(error) => Error(error)
    case None => Ok(Mutated(table, contents, change))
  }

  function ApplyChanges(table: TableSchema, contents: Contents, rows: seq<Change>): Persisted
    requires HelperShape(table)
  {
    if rows == [] then Ok(contents)
    else
      var before := ApplyChanges(table, contents, rows[..|rows| - 1]);
      if before.Ok? then ApplyChange(table, before.contents, rows[|rows| - 1]) else before
  }

  lemma {:induction false} ErrorStays(table: TableSchema, contents: Contents, rows: seq<Change>, n: nat)
    requires HelperShape(table) && n <= |rows| && ApplyChanges(table, contents, rows[..n]).Error?
    ensures ApplyChanges(table, contents, rows) == ApplyChanges(table, contents, rows[..n])
  {
    if n == |rows| {
      assert rows[..n] == rows;
    } else {
      var shorter := rows[..|rows| - 1];
      assert shorter[..n] == rows[..n];
      ErrorStays(table, contents, shorter, n);
    }
  }

  class HelperStore {
    const table: TableSchema
    var contents: Contents

    constructor (table: TableSchema)
      ensures this.table == table && contents == Contents(map[], multiset{})
    {
      this.table, contents := table, Contents(map[], multiset{});
    }

    /** One transaction per batch: all mutations in order, or none of them. Mutation number faultAt, if it is
        reached, fails for a reason of its own; so may the commit. */
    method PersistRowBatch(rows: seq<Change>, faultAt: nat, commits: bool) returns (error: Option<PersistError>)
      requires HelperShape(table)
      modifies this`contents
      ensures error.None? ==> ApplyChanges(table, old(contents), rows) == Ok(contents)
      ensures error.Some? ==> contents == old(contents)
      ensures error.Some? && commits && |rows| <= faultAt ==> ApplyChanges(table, contents, rows) == Error(error.value)
      ensures error.None? <==> commits && |rows| <= faultAt && ApplyChanges(table, old(contents), rows).Ok?
    {
      var saved := contents;
      var i := 0;
      while i < |rows|
        invariant 0 <= i <= |rows| && i <= faultAt
        invariant ApplyChanges(table, saved, rows[..i]) == Ok(contents)
      {
        assert rows[..i + 1][..i] == rows[..i];
        var applied := ApplyChange(table, contents, rows[i]);
        if applied.Error? || i == faultAt {
          contents := saved;
          if applied.Error? {
            ErrorStays(table, saved, rows, i + 1);
          }
          return Some(if applied.Error? then applied.error else ApplyMutation);
        }
        contents := applied.contents;
        i := i + 1;
      }
      assert rows[..i] == rows;
      if !commits {
        contents := saved;
        return Some(ApplyMutation);
      }
      error := None;
    }
  }

  // ---- The final state of a key is what its last operation made it ----

  function Lookup(rows: Rows, k: Key): Option<Row> {
    if k in rows then Some(rows[k]) else None
  }

  /** The key that a change is about. */
  function TouchedKey(table: TableSchema, change: Change): Key
    requires HelperShape(table) && Refused(table, change).None?
  {
    if change.operation == DeleteRow then Addressed(change.key, table.primaryKey)
    else KeyOf(Populated(change.values.value, table), table.primaryKey)
  }

  /** What it leaves under that key. */
  function Left(table: TableSchema, change: Change): Option<Row>
    requires Refused(table, change).None?
  {
    if change.operation == DeleteRow then None else Some(Populated(change.values.value, table))
  }

  ghost predicate Accepted(table: TableSchema, rows: seq<Change>) {
    forall i :: 0 <= i < |rows| ==> Refused(table, rows[i]).None?
  }

  lemma ChangeEffect(table: TableSchema, contents: Contents, change: Change, k: Key)
    requires HelperShape(table) && table.primaryKey != [] && Refused(table, change).None?
    ensures Lookup(Mutated(table, contents, change).keyed, k)
      == if k == TouchedKey(table, change) then Left(table, change) else Lookup(contents.keyed, k)
    ensures Mutated(table, contents, change).heap == contents.heap
  {
  }

  lemma {:induction false} AcceptedApplies(table: TableSchema, contents: Contents, rows: seq<Change>)
    requires HelperShape(table) && Accepted(table, rows)
    ensures ApplyChanges(table, contents, rows).Ok?
  {
    if rows != [] {
      AcceptedApplies(table, contents, rows[..|rows| - 1]);
    }
  }

  /** Index l holds the last change about key k. */
  ghost predicate LastTouch(table: TableSchema, rows: seq<Change>, k: Key, l: nat)
    requires HelperShape(table) && Accepted(table, rows)
  {
    && l < |rows| && TouchedKey(table, rows[l]) == k
    && forall i :: l < i < |rows| ==> TouchedKey(table, rows[i]) != k
  }

  // ---- At-least-once delivery ----

  /** The order in which the changes of a history arrive: from the first on, never skipping ahead, possibly
      falling back to an earlier one any number of times, until the last one. */
  ghost predicate Delivery(positions: seq<nat>, n: nat) {
    && (forall t :: 0 <= t < |positions| ==> positions[t] < n)
    && (if n == 0 then positions == [] else positions != [] && positions[0] == 0 && positions[|positions| - 1] == n - 1)
    && (forall t, u :: 0 <= t < |positions| && u == t + 1 < |positions| ==> positions[u] <= positions[t] + 1)
  }

  function Delivered(history: seq<Change>, positions: seq<nat>): seq<Change>
    requires forall t :: 0 <= t < |positions| ==> positions[t] < |history|
  {
    seq(|positions|, t requires 0 <= t < |positions| => history[positions[t]])
  }

  lemma DeliveredAccepted(table: TableSchema, history: seq<Change>, positions: seq<nat>)
    requires Accepted(table, history) && forall t :: 0 <= t < |positions| ==> positions[t] < |history|
    ensures Accepted(table, Delivered(history, positions))
  {
  }

  lemma ApplySnoc(table: TableSchema, contents: Contents, rows: seq<Change>, change: Change)
    requires HelperShape(table) && Accepted(table, rows) && Refused(table, change).None?
    ensures Accepted(table, rows + [change])
    ensures ApplyChanges(table, contents, rows).Ok? && ApplyChanges(table, contents, rows + [change])
      == Ok(Mutated(table, ApplyChanges(table, contents, rows).contents, change))
  {
    AcceptedApplies(table, contents, rows);
    assert (rows + [change])[..|rows|] == rows;
  }

  /** Some part of a delivery, and what it has made of the table. */
  ghost function Partly(table: TableSchema, contents: Contents, history: seq<Change>, positions: seq<nat>): Contents
    requires HelperShape(table) && Accepted(table, history) && forall t :: 0 <= t < |positions| ==> positions[t] < |history|
  {
    DeliveredAccepted(table, history, positions);
    AcceptedApplies(table, contents, Delivered(history, positions));
    ApplyChanges(table, contents, Delivered(history, positions)).contents
  }

  lemma PartlySnoc(table: TableSchema, contents: Contents, history: seq<Change>, positions: seq<nat>, m: nat)
    requires HelperShape(table) && Accepted(table, history) && forall t :: 0 <= t < |positions| ==> positions[t] < |history|
    requires m < |positions|
    ensures Partly(table, contents, history, positions[..m + 1])
      == Mutated(table, Partly(table, contents, history, positions[..m]), history[positions[m]])
  {
    DeliveredAccepted(table, history, positions[..m]);
    assert Delivered(history, positions[..m + 1]) == Delivered(history, positions[..m]) + [history[positions[m]]];
    ApplySnoc(table, contents, Delivered(history, positions[..m]), history[positions[m]]);
  }

  /** From the last change of a key on, wherever the delivery falls back to, the key is as that change left it. */
  lemma {:induction false} TouchedSettles(
    table: TableSchema, contents: Contents, history: seq<Change>, positions: seq<nat>, k: Key, l: nat, m: nat)
    requires HelperShape(table) && Accepted(table, history) && table.primaryKey != []
    requires Delivery(positions, |history|) && LastTouch(table, history, k, l)
    requires 0 < m <= |positions| && positions[m - 1] >= l
    ensures Lookup(Partly(table, contents, history, positions[..m]).keyed, k) == Left(table, history[l])
  {
    var p := positions[m - 1];
    PartlySnoc(table, contents, history, positions, m - 1);
    ChangeEffect(table, Partly(table, contents, history, positions[..m - 1]), history[p], k);
    if p > l {
      assert m > 1 && positions[m - 1] <= positions[m - 2] + 1;
      TouchedSettles(table, contents, history, positions, k, l, m - 1);
    }
  }

  lemma {:induction false} UntouchedStays(
    table: TableSchema, contents: Contents, history: seq<Change>, positions: seq<nat>, k: Key, m: nat)
    requires HelperShape(table) && Accepted(table, history) && table.primaryKey != []
    requires forall t :: 0 <= t < |positions| ==> positions[t] < |history|
    requires m <= |positions| && forall i :: 0 <= i < |history| ==> TouchedKey(table, history[i]) != k
    ensures Lookup(Partly(table, contents, history, positions[..m]).keyed, k) == Lookup(contents.keyed, k)
  {
    if m > 0 {
      UntouchedStays(table, contents, history, positions, k, m - 1);
      PartlySnoc(table, contents, history, positions, m - 1);
      ChangeEffect(table, Partly(table, contents, history, positions[..m - 1]), history[positions[m - 1]], k);
    } else {
      assert Delivered(history, positions[..0]) == [];
    }
  }

  lemma {:induction false} HeapStays(table: TableSchema, contents: Contents, rows: seq<Change>)
    requires HelperShape(table) && Accepted(table, rows) && table.primaryKey != []
    ensures ApplyChanges(table, contents, rows).Ok? && ApplyChanges(table, contents, rows).contents.heap == contents.heap
  {
    if rows != [] {
      HeapStays(table, contents, rows[..|rows| - 1]);
    }
  }

  /** The last of the first n changes that is about key k, or -1. */
  ghost function LastIndex(table: TableSchema, history: seq<Change>, k: Key, n: nat): (l: int)
    requires HelperShape(table) && Accepted(table, history) && n <= |history|
    ensures -1 <= l < n && (l >= 0 ==> TouchedKey(table, history[l]) == k)
    ensures forall i :: l < i < n ==> TouchedKey(table, history[i]) != k
  {
    if n == 0 then -1
    else if TouchedKey(table, history[n - 1]) == k then n - 1
    else LastIndex(table, history, k, n - 1)
  }

  function InOrder(n: nat): seq<nat> {
    seq(n, i => i)
  }

  lemma DeliveryLookup(table: TableSchema, contents: Contents, history: seq<Change>, positions: seq<nat>, k: Key)
    requires HelperShape(table) && Accepted(table, history) && table.primaryKey != []
    requires Delivery(positions, |history|)
    ensures var l := LastIndex(table, history, k, |history|);
      Lookup(Partly(table, contents, history, positions).keyed, k)
        == if l >= 0 then Left(table, history[l]) else Lookup(contents.keyed, k)
  {
    var l := LastIndex(table, history, k, |history|);
    assert positions[..|positions|] == positions;
    if l >= 0 {
      TouchedSettles(table, contents, history, positions, k, l, |positions|);
    } else {
      UntouchedStays(table, contents, history, positions, k, |positions|);
    }
  }

  /** However often changes are repeated, a helper table with a primary key ends up as if each had come once. */
  lemma DeliveryConverges(table: TableSchema, contents: Contents, history: seq<Change>, positions: seq<nat>)
    requires HelperShape(table) && Accepted(table, history) && table.primaryKey != []
    requires Delivery(positions, |history|)
    ensures ApplyChanges(table, contents, Delivered(history, positions)) == ApplyChanges(table, contents, history)
  {
    var once := InOrder(|history|);
    assert Delivered(history, once) == history;
    DeliveredAccepted(table, history, positions);
    HeapStays(table, contents, Delivered(history, positions));
    HeapStays(table, contents, history);
    var a, b := Partly(table, contents, history, positions), Partly(table, contents, history, once);
    forall k: Key
      ensures Lookup(a.keyed, k) == Lookup(b.keyed, k)
    {
      DeliveryLookup(table, contents, history, positions, k);
      DeliveryLookup(table, contents, history, once, k);
    }
    SameLookups(a.keyed, b.keyed);
  }

  // ---- Delivery in order for each key ----

  /** Which changes about key k are among those that arrive. */
  ghost function About(table: TableSchema, history: seq<Change>, positions: seq<nat>, k: Key): (seen: seq<nat>)
    requires HelperShape(table) && Accepted(table, history) && forall t :: 0 <= t < |positions| ==> positions[t] < |history|
  {
    if positions == [] then []
    else
      var n := |positions| - 1;
      About(table, history, positions[..n], k) + if TouchedKey(table, history[positions[n]]) == k then [positions[n]] else []
  }

  /** What arrives about key k is a delivery of the changes about k, wherever the changes of other keys come. */
  ghost predicate KeyDelivery(table: TableSchema, history: seq<Change>, positions: seq<nat>, k: Key)
    requires HelperShape(table) && Accepted(table, history)
  {
    && (forall t :: 0 <= t < |positions| ==> positions[t] < |history|)
    && exists ranks :: Walks(ranks, About(table, history, InOrder(|history|), k), About(table, history, positions, k))
  }

  ghost predicate Walks(ranks: seq<nat>, all: seq<nat>, seen: seq<nat>) {
    Delivery(ranks, |all|) && |seen| == |ranks| && forall t :: 0 <= t < |seen| ==> seen[t] == all[ranks[t]]
  }

  /** What the last of the changes seen about key k leaves. */
  ghost function LastLeft(table: TableSchema, contents: Contents, history: seq<Change>, seen: seq<nat>, k: Key): Option<Row>
    requires HelperShape(table) && Accepted(table, history)
  {
    if seen == [] then Lookup(contents.keyed, k)
    else if seen[|seen| - 1] < |history| then Left(table, history[seen[|seen| - 1]])
    else None
  }

  /** One more change arrives. */
  lemma OneMoreArrival(
    table: TableSchema, contents: Contents, history: seq<Change>, positions: seq<nat>, k: Key)
    requires HelperShape(table) && Accepted(table, history) && table.primaryKey != [] && positions != []
    requires forall t :: 0 <= t < |positions| ==> positions[t] < |history|
    ensures var change := history[positions[|positions| - 1]];
      Lookup(Partly(table, contents, history, positions).keyed, k)
        == if k == TouchedKey(table, change) then Left(table, change)
           else Lookup(Partly(table, contents, history, positions[..|positions| - 1]).keyed, k)
  {
    var n := |positions| - 1;
    hide Partly, Lookup, Left, TouchedKey, Mutated, Refused;
    assert positions[..n + 1] == positions;
    PartlySnoc(table, contents, history, positions, n);
    ChangeEffect(table, Partly(table, contents, history, positions[..n]), history[positions[n]], k);
  }

  /** A key is as the last change that arrived about it left it. */
  lemma {:induction false} LastArrivalDecides(
    table: TableSchema, contents: Contents, history: seq<Change>, positions: seq<nat>, k: Key)
    requires HelperShape(table) && Accepted(table, history) && table.primaryKey != []
    requires forall t :: 0 <= t < |positions| ==> positions[t] < |history|
    ensures Lookup(Partly(table, contents, history, positions).keyed, k)
      == LastLeft(table, contents, history, About(table, history, positions, k), k)
  {
    if positions == [] {
      assert Delivered(history, positions) == [];
    } else {
      var n := |positions| - 1;
      hide Partly, Lookup, Left, TouchedKey, HelperShape, Refused;
      LastArrivalDecides(table, contents, history, positions[..n], k);
      OneMoreArrival(table, contents, history, positions, k);
    }
  }

  /** Deliveries that keep the order for each key only converge all the same. */
  lemma KeyOrderConverges(table: TableSchema, contents: Contents, history: seq<Change>, positions: seq<nat>)
    requires HelperShape(table) && Accepted(table, history) && table.primaryKey != []
    requires forall k: Key :: KeyDelivery(table, history, positions, k)
    ensures forall t :: 0 <= t < |positions| ==> positions[t] < |history|
    ensures ApplyChanges(table, contents, Delivered(history, positions)) == ApplyChanges(table, contents, history)
  {
    assert KeyDelivery(table, history, positions, []);
    var once := InOrder(|history|);
    assert Delivered(history, once) == history;
    DeliveredAccepted(table, history, positions);
    HeapStays(table, contents, Delivered(history, positions));
    HeapStays(table, contents, history);
    var a, b := Partly(table, contents, history, positions), Partly(table, contents, history, once);
    forall k: Key
      ensures Lookup(a.keyed, k) == Lookup(b.keyed, k)
    {
      SameLastArrival(table, contents, history, positions, k);
    }
    SameLookups(a.keyed, b.keyed);
  }

  lemma SameLastArrival(table: TableSchema, contents: Contents, history: seq<Change>, positions: seq<nat>, k: Key)
    requires HelperShape(table) && Accepted(table, history) && table.primaryKey != []
    requires KeyDelivery(table, history, positions, k)
    ensures Lookup(Partly(table, contents, history, positions).keyed, k)
      == Lookup(Partly(table, contents, history, InOrder(|history|)).keyed, k)
  {
    LastArrivalDecides(table, contents, history, positions, k);
    LastArrivalDecides(table, contents, history, InOrder(|history|), k);
    SeenAlike(table, contents, history, positions, k);
  }

  lemma SeenAlike(table: TableSchema, contents: Contents, history: seq<Change>, positions: seq<nat>, k: Key)
    requires HelperShape(table) && Accepted(table, history) && KeyDelivery(table, history, positions, k)
    ensures LastLeft(table, contents, history, About(table, history, positions, k), k)
      == LastLeft(table, contents, history, About(table, history, InOrder(|history|), k), k)
  {
    var all, seen := About(table, history, InOrder(|history|), k), About(table, history, positions, k);
    hide About, Accepted, HelperShape, Left, Lookup;
    WalkEnds(all, seen);
  }

  lemma WalkEnds(all: seq<nat>, seen: seq<nat>)
    requires exists ranks :: Walks(ranks, all, seen)
    ensures (seen == [] <==> all == []) && (all != [] ==> seen[|seen| - 1] == all[|all| - 1])
  {
    var ranks :| Walks(ranks, all, seen);
    if all != [] {
      assert seen[|seen| - 1] == all[ranks[|ranks| - 1]];
    }
  }

  lemma SameLookups(a: Rows, b: Rows)
    requires forall k: Key :: Lookup(a, k) == Lookup(b, k)
    ensures a == b
  {
    forall k: Key
      ensures (k in a <==> k in b) && (k in a ==> a[k] == b[k])
    {
      assert Lookup(a, k) == Lookup(b, k);
    }
  }

  lemma {:induction false} ApplyConcat(table: TableSchema, contents: Contents, a: seq<Change>, b: seq<Change>)
    requires HelperShape(table) && ApplyChanges(table, contents, a).Ok?
    ensures ApplyChanges(table, contents, a + b) == ApplyChanges(table, ApplyChanges(table, contents, a).contents, b)
  {
    if b == [] {
      assert a + b == a;
    } else {
      var n := |b| - 1;
      assert (a + b)[..|a + b| - 1] == a + b[..n];
      ApplyConcat(table, contents, a, b[..n]);
    }
  }

  /** Without a primary key a repeated batch doubles its rows: delivering an accepted batch twice changes nothing
      exactly when the table has a primary key or the batch is empty. */
  lemma TwiceIsOnce(table: TableSchema, contents: Contents, rows: seq<Change>)
    requires HelperShape(table) && Accepted(table, rows)
    ensures ApplyChanges(table, contents, rows + rows) == ApplyChanges(table, contents, rows)
      <==> table.primaryKey != [] || rows == []
  {
    if table.primaryKey != [] {
      var twice := InOrder(|rows|) + InOrder(|rows|);
      assert Delivered(rows, twice) == rows + rows;
      assert Delivery(twice, |rows|);
      DeliveryConverges(table, contents, rows, twice);
    } else {
      AcceptedApplies(table, contents, rows);
      var once := ApplyChanges(table, contents, rows).contents;
      ApplyConcat(table, contents, rows, rows);
      HeapGrows(table, contents, rows);
      HeapGrows(table, once, rows);
      AcceptedApplies(table, once, rows);
      assert rows + rows == [] <==> rows == [];
    }
  }

  lemma {:induction false} HeapGrows(table: TableSchema, contents: Contents, rows: seq<Change>)
    requires HelperShape(table) && Accepted(table, rows) && table.primaryKey == []
    ensures ApplyChanges(table, contents, rows).Ok?
    ensures |ApplyChanges(table, contents, rows).contents.heap| == |contents.heap| + |rows|
  {
    if rows != [] {
      HeapGrows(table, contents, rows[..|rows| - 1]);
    }
  }

  // ---- Helper tables stay well formed ----

  lemma PopulatedRow(table: TableSchema, change: Change)
    requires HelperShape(table) && Refused(table, change).None? && change.operation == UpsertRow
    ensures var row := Populated(change.values.value, table);
      (forall c :: c in table.primaryKey ==> c in row) && HelperRow(row, KeyOf(row, table.primaryKey), table)
  {
  }

  /** Every row of a helper table carries all columns and is filed under its own primary key. */
  lemma {:induction false} RowsStayFiled(table: TableSchema, contents: Contents, rows: seq<Change>)
    requires HelperShape(table) && HelperRows(contents.keyed, table)
    ensures var r := ApplyChanges(table, contents, rows); r.Ok? ==> HelperRows(r.contents.keyed, table)
  {
    if rows != [] {
      var n := |rows| - 1;
      RowsStayFiled(table, contents, rows[..n]);
      if rows[n].operation == UpsertRow && Refused(table, rows[n]).None? {
        PopulatedRow(table, rows[n]);
      }
    }
  }

  // ---- From the source's changes to the real tables ----

  const EMPTY := Contents(map[], multiset{})

  /** One selected table: its history at the source and the order in which the changes arrived. */
  datatype Feed = Feed(table: TableSchema, history: seq<Change>, positions: seq<nat>)

  ghost predicate ValidFeed(feed: Feed) {
    && HelperShape(feed.table) && feed.table.primaryKey != []
    && Accepted(feed.table, feed.history)
    && (forall t :: 0 <= t < |feed.positions| ==> feed.positions[t] < |feed.history|)
    && forall k: Key :: KeyDelivery(feed.table, feed.history, feed.positions, k)
  }

  /** The rows of the source table after its history. */
  ghost function SourceRows(feed: Feed): Rows
    requires ValidFeed(feed)
  {
    AcceptedApplies(feed.table, EMPTY, feed.history);
    ApplyChanges(feed.table, EMPTY, feed.history).contents.keyed
  }

  ghost function SourceTables(feeds: map<TableName, Feed>): Database
    requires forall t :: t in feeds ==> ValidFeed(feeds[t])
  {
    map t | t in feeds :: SourceRows(feeds[t])
  }

  /** The helper tables hold what the deliveries made of empty tables. */
  ghost predicate Fed(helper: Database, feeds: map<TableName, Feed>, schema: ValidatedSchema) {
    helper.Keys == feeds.Keys <= schema.Keys && forall t :: t in feeds ==>
      && ValidFeed(feeds[t]) && feeds[t].table == schema[t]
      && ApplyChanges(feeds[t].table, EMPTY, Delivered(feeds[t].history, feeds[t].positions)) == Ok(Contents(helper[t], multiset{}))
  }

  lemma FedIsSource(helper: Database, feeds: map<TableName, Feed>, schema: ValidatedSchema)
    requires Fed(helper, feeds, schema)
    ensures helper == SourceTables(feeds) && forall t :: t in helper ==> HelperRows(helper[t], schema[t])
  {
    forall t | t in feeds
      ensures helper[t] == SourceRows(feeds[t]) && HelperRows(helper[t], schema[t])
    {
      var feed := feeds[t];
      KeyOrderConverges(feed.table, EMPTY, feed.history, feed.positions);
      RowsStayFiled(feed.table, EMPTY, feed.history);
    }
  }

  /** However often the changes were repeated on the way, a pass over consistent real tables makes them the source
      tables exactly when those are closed under the foreign keys.  If it succeeds otherwise, it is an ON DELETE
      action that has spread; without CASCADE and SET NULL it then fails. */
  lemma SourceReachesReal(
    db: Database, helper: Database, schema: ValidatedSchema, order: ReconcileOrder, feeds: map<TableName, Feed>)
    requires Fed(helper, feeds, schema) && db.Keys == helper.Keys
    requires WellFormed(schema, db) && (forall t :: t in db ==> RealRows(db[t], schema[t]))
    requires Consistent(db, schema) && Plans(order, db, schema)
    requires Runnable(db, helper, schema, order.upsertOrder) && Runnable(db, helper, schema, order.deleteOrder)
    ensures var r, source := Pass(db, helper, schema, order), SourceTables(feeds);
      && source.Keys <= schema.Keys
      && (r == Done(ShownAll(source, schema)) <==> Closed(source, schema))
      && (r.Done? && !Closed(source, schema) ==> PassSpreads(db, helper, schema, order))
      && (Passive(schema, db) && !Closed(source, schema) ==> !r.Done?)
  {
    FedIsSource(helper, feeds, schema);
    FedHasKeys(helper, feeds, schema);
    hide Plans, Pass, PassSpreads, Consistent, Closed, SourceTables, WellFormed, ValidFeed, Fed, Passive;
    PassSucceeds(db, helper, schema, order);
    if Passive(schema, db) {
      PassivePassSucceeds(db, helper, schema, order);
    }
  }

  lemma FedHasKeys(helper: Database, feeds: map<TableName, Feed>, schema: ValidatedSchema)
    requires Fed(helper, feeds, schema)
    ensures helper.Keys <= schema.Keys && forall t :: t in helper ==> schema[t].primaryKey != []
  {
    forall t | t in helper
      ensures schema[t].primaryKey != []
    {
      assert ValidFeed(feeds[t]);
    }
  }
}

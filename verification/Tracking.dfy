/** The two tracking tables of the destination: how far each stream has been received and reconciled. */
module Tracking {
  import opened HelperPlan
  import opened Options
  import opened Texts
  import opened Watermarks

  type MappingId = string

  datatype StreamState = StreamState(sourceDatabase: string, received: Option<Watermark>, reconciled: Option<Watermark>)

  datatype TableSync = TableSync(helperTable: string, watermark: Option<Watermark>, lastError: Option<string>)

  /** A source table and the name of its helper table. */
  datatype HelperName = HelperName(table: TableName, helperTable: string)

  datatype TableId = TableId(mapping: MappingId, table: TableName)

  datatype State = State(streams: map<MappingId, StreamState>, tables: map<TableId, TableSync>)

  datatype Outcome = Persisted | MissingStream | MissingTable(table: TableName)

  // ---- What each operation does ----

  function SeedStream(st: State, m: MappingId, sourceDatabase: string): State {
    var row := if m in st.streams then st.streams[m].(sourceDatabase := sourceDatabase) else StreamState(sourceDatabase, None, None);
    st.(streams := st.streams[m := row])
  }

  function SeedTable(st: State, m: MappingId, h: HelperName): State {
    var id := TableId(m, h.table);
    var row := if id in st.tables then st.tables[id].(helperTable := h.helperTable) else TableSync(h.helperTable, None, None);
    st.(tables := st.tables[id := row])
  }

  function SeedTables(st: State, m: MappingId, helpers: seq<HelperName>): State {
    if helpers == [] then st else SeedTable(SeedTables(st, m, helpers[..|helpers| - 1]), m, helpers[|helpers| - 1])
  }

  /** The first statements of seeding; each is committed on its own. */
  function Seeded(st: State, m: MappingId, sourceDatabase: string, helpers: seq<HelperName>, statements: nat): State
    requires statements <= |helpers| + 1
  {
    if statements == 0 then st else SeedTables(SeedStream(st, m, sourceDatabase), m, helpers[..statements - 1])
  }

  function Later(a: Option<Watermark>, w: Watermark): Watermark {
    if a.None? || TextLess(a.value, w) then w else a.value
  }

  function Resolve(st: State, m: MappingId, w: Watermark): (State, Outcome) {
    if m in st.streams then
      (st.(streams := st.streams[m := st.streams[m].(received := Some(Later(st.streams[m].received, w)))]), Persisted)
    else (st, MissingStream)
  }

  /** The first listed table without a tracking row. */
  function FirstMissing(rows: map<TableId, TableSync>, m: MappingId, listed: seq<TableName>): Option<TableName> {
    if listed == [] then None
    else if TableId(m, listed[0]) !in rows then Some(listed[0])
    else FirstMissing(rows, m, listed[1..])
  }

  function Synced(rows: map<TableId, TableSync>, m: MappingId, listed: seq<TableName>, w: Watermark): (r: map<TableId, TableSync>)
    ensures r.Keys == rows.Keys
  {
    map id | id in rows ::
      if id.mapping == m && id.table in listed then rows[id].(watermark := Some(w), lastError := None) else rows[id]
  }

  function Reconciled(st: State, m: MappingId, w: Watermark): map<MappingId, StreamState>
    requires m in st.streams
  {
    st.streams[m := st.streams[m].(reconciled := Some(Later(st.streams[m].reconciled, w)))]
  }

  /** A pass over the tables succeeded; an error leaves nothing behind. */
  function Succeed(st: State, m: MappingId, listed: seq<TableName>): (State, Outcome) {
    if m !in st.streams then (st, MissingStream)
    else if st.streams[m].received.None? then (st, Persisted)
    else if FirstMissing(st.tables, m, listed).Some? then (st, MissingTable(FirstMissing(st.tables, m, listed).value))
    else
      var w := st.streams[m].received.value;
      (State(Reconciled(st, m, w), Synced(st.tables, m, listed, w)), Persisted)
  }

  /** A pass failed at a table. */
  function Fail(st: State, m: MappingId, table: TableName, error: string): (State, Outcome) {
    var id := TableId(m, table);
    if id in st.tables then (st.(tables := st.tables[id := st.tables[id].(lastError := Some(error))]), Persisted)
    else (st, MissingTable(table))
  }

  // ---- The tracking tables ----

  class TrackingTables {
    var streams: map<MappingId, StreamState>
    var tables: map<TableId, TableSync>

    function Contents(): State
      reads this
    {
      State(streams, tables)
    }

    constructor ()
      ensures Contents() == State(map[], map[])
    {
      streams, tables := map[], map[];
    }

    /** Seeds the stream and then each table, or as many of these statements as get through. */
    method Seed(m: MappingId, sourceDatabase: string, helpers: seq<HelperName>, statements: nat)
      requires statements <= |helpers| + 1
      modifies this
      ensures Contents() == Seeded(old(Contents()), m, sourceDatabase, helpers, statements)
    {
      if statements == 0 {
        return;
      }
      streams := SeedStream(Contents(), m, sourceDatabase).streams;
      ghost var seeded := Contents();
      var i := 0;
      while i < statements - 1
        invariant 0 <= i <= statements - 1
        invariant Contents() == SeedTables(seeded, m, helpers[..i])
      {
        assert helpers[..i + 1][..i] == helpers[..i];
        tables := SeedTable(Contents(), m, helpers[i]).tables;
        i := i + 1;
      }
    }

    method PersistResolved(m: MappingId, watermark: Watermark) returns (outcome: Outcome)
      modifies this
      ensures (Contents(), outcome) == Resolve(old(Contents()), m, watermark)
    {
      if m !in streams {
        return MissingStream;
      }
      var row := streams[m];
      if row.received.None? || TextLess(row.received.value, watermark) {
        streams := streams[m := row.(received := Some(watermark))];
      }
      outcome := Persisted;
      assert streams == old(streams)[m := row.(received := Some(Later(row.received, watermark)))];
    }

    /** Runs inside the pass's transaction: after an error the caller rolls back. */
    method PersistReconcileSuccess(m: MappingId, listed: seq<TableName>) returns (outcome: Outcome)
      modifies this
      ensures outcome == Succeed(old(Contents()), m, listed).1
      ensures outcome.Persisted? ==> Contents() == Succeed(old(Contents()), m, listed).0
    {
      if m !in streams {
        return MissingStream;
      }
      var row := streams[m];
      if row.received.None? {
        return Persisted;
      }
      var received := row.received.value;
      if row.reconciled.None? || TextLess(row.reconciled.value, received) {
        streams := streams[m := row.(reconciled := Some(received))];
      }
      assert streams == Reconciled(old(Contents()), m, received);
      outcome := SyncTables(m, listed, received);
    }

    /** Sets the sync watermark of the listed tables, up to the first one without a row. */
    method SyncTables(m: MappingId, listed: seq<TableName>, received: Watermark) returns (outcome: Outcome)
      modifies this`tables
      ensures outcome == match FirstMissing(old(tables), m, listed) case None => Persisted case Some(t) => MissingTable(t)
      ensures outcome.Persisted? ==> tables == Synced(old(tables), m, listed, received)
    {
      ghost var before := tables;
      hide Synced;
      SyncedNone(before, m, received);
      var i := 0;
      while i < |listed|
        invariant 0 <= i <= |listed| && tables.Keys == before.Keys
        invariant tables == Synced(before, m, listed[..i], received)
        invariant FirstMissing(before, m, listed) == FirstMissing(before, m, listed[i..])
      {
        var id := TableId(m, listed[i]);
        if id !in tables {
          return MissingTable(listed[i]);
        }
        SyncedSnoc(before, m, listed[..i], listed[i], received);
        assert listed[..i + 1] == listed[..i] + [listed[i]];
        tables := tables[id := tables[id].(watermark := Some(received), lastError := None)];
        i := i + 1;
      }
      assert listed[..i] == listed;
      outcome := Persisted;
    }

    method PersistReconcileFailure(m: MappingId, table: TableName, error: string) returns (outcome: Outcome)
      modifies this
      ensures (Contents(), outcome) == Fail(old(Contents()), m, table, error)
    {
      var id := TableId(m, table);
      if id !in tables {
        return MissingTable(table);
      }
      tables := tables[id := tables[id].(lastError := Some(error))];
      outcome := Persisted;
    }
  }

  lemma SyncedSnoc(rows: map<TableId, TableSync>, m: MappingId, listed: seq<TableName>, t: TableName, w: Watermark)
    requires TableId(m, t) in rows
    ensures Synced(rows, m, listed + [t], w)
      == Synced(rows, m, listed, w)[TableId(m, t) := Synced(rows, m, listed, w)[TableId(m, t)].(watermark := Some(w), lastError := None)]
  {
  }

  lemma SyncedNone(rows: map<TableId, TableSync>, m: MappingId, w: Watermark)
    ensures Synced(rows, m, [], w) == rows
  {
  }

  // ---- Runs: any interleaving of seeding, requests and passes of all mappings ----

  datatype Step =
    | Seeding(mapping: MappingId, sourceDatabase: string, helpers: seq<HelperName>, statements: nat)
    | Request(mapping: MappingId, watermark: Watermark)
    | Success(mapping: MappingId, listed: seq<TableName>)
    | Failure(mapping: MappingId, table: TableName, error: string)

  function After(st: State, step: Step): State {
    match step
    case Seeding(m, sourceDatabase, helpers, statements) =>
      Seeded(st, m, sourceDatabase, helpers, if statements <= |helpers| + 1 then statements else |helpers| + 1)
    case Request(m, w) => Resolve(st, m, w).0
    case Success(m, listed) => Succeed(st, m, listed).0
    case Failure(m, table, error) => Fail(st, m, table, error).0
  }

  function Run(steps: seq<Step>): State {
    if steps == [] then State(map[], map[]) else After(Run(steps[..|steps| - 1]), steps[|steps| - 1])
  }

  lemma {:induction false} SeedTablesKeep(st: State, m: MappingId, helpers: seq<HelperName>, id: TableId)
    ensures var after := SeedTables(st, m, helpers);
      && after.streams == st.streams
      && (id in after.tables <==> id in st.tables || (id.mapping == m && exists i :: 0 <= i < |helpers| && helpers[i].table == id.table))
      && (id in after.tables ==>
            var before := if id in st.tables then st.tables[id] else TableSync("", None, None);
            after.tables[id].watermark == before.watermark && after.tables[id].lastError == before.lastError)
  {
    if helpers != [] {
      var n := |helpers| - 1;
      SeedTablesKeep(st, m, helpers[..n], id);
      assert forall i :: 0 <= i < n ==> helpers[..n][i] == helpers[i];
    }
  }

  /** The stream's row exists once a first seeding statement was committed. */
  ghost predicate StreamKnown(steps: seq<Step>, m: MappingId) {
    exists i :: 0 <= i < |steps| && steps[i].Seeding? && steps[i].mapping == m && steps[i].statements > 0
  }

  /** The watermarks of the requests that were answered with success. */
  ghost function Accepted(steps: seq<Step>, m: MappingId): seq<Watermark> {
    if steps == [] then []
    else
      var n := |steps| - 1;
      var before := Accepted(steps[..n], m);
      if steps[n].Request? && steps[n].mapping == m && StreamKnown(steps[..n], m) then before + [steps[n].watermark] else before
  }

  ghost predicate IsLatest(w: Option<Watermark>, accepted: seq<Watermark>) {
    (w.None? <==> accepted == []) && (w.Some? ==> w.value in accepted && forall v :: v in accepted ==> !TextLess(w.value, v))
  }

  lemma {:induction false} StreamsKnown(steps: seq<Step>, m: MappingId)
    ensures m in Run(steps).streams <==> StreamKnown(steps, m)
  {
    if steps != [] {
      var n := |steps| - 1;
      var before, last := Run(steps[..n]), steps[n];
      StreamsKnown(steps[..n], m);
      assert StreamKnown(steps, m) <==> StreamKnown(steps[..n], m) || (last.Seeding? && last.mapping == m && last.statements > 0);
      SeededStreams(before, last, m);
    }
  }

  lemma SeededStreams(st: State, last: Step, m: MappingId)
    ensures var after := After(st, last);
      && (m in after.streams <==> m in st.streams || (last.Seeding? && last.mapping == m && last.statements > 0))
      && (last.Seeding? && m in st.streams ==>
            after.streams[m].received == st.streams[m].received && after.streams[m].reconciled == st.streams[m].reconciled)
      && (last.Seeding? && m in after.streams && m !in st.streams ==>
            after.streams[m].received == None && after.streams[m].reconciled == None)
  {
    if last.Seeding? && last.statements > 0 {
      var k := if last.statements <= |last.helpers| + 1 then last.statements else |last.helpers| + 1;
      SeedTablesKeep(SeedStream(st, last.mapping, last.sourceDatabase), last.mapping, last.helpers[..k - 1],
        TableId(m, TableName("", "")));
    }
  }

  /** A successful pass that advances the tracking state: a watermark was received and every listed table has a row. */
  predicate Effective(st: State, step: Step) {
    step.Success? && step.mapping in st.streams && st.streams[step.mapping].received.Some?
    && FirstMissing(st.tables, step.mapping, step.listed).None?
  }

  lemma StepStream(st: State, step: Step, m: MappingId)
    requires m in st.streams
    ensures var row, after := st.streams[m], After(st, step).streams;
      && m in after
      && after[m].received
           == (if step.Request? && step.mapping == m then Some(Later(row.received, step.watermark)) else row.received)
      && after[m].reconciled
           == (if Effective(st, step) && step.mapping == m then Some(Later(row.reconciled, row.received.value)) else row.reconciled)
  {
    if step.Seeding? {
      SeededStreams(st, step, m);
    }
  }

  lemma LaterIsMax(a: Option<Watermark>, w: Watermark)
    ensures AtMost(a, Some(Later(a, w))) && AtMost(Some(w), Some(Later(a, w)))
    ensures forall b: Option<Watermark> :: AtMost(a, b) && AtMost(Some(w), b) ==> AtMost(Some(Later(a, w)), b)
  {
    TextTotal(w, w);
    if a.Some? {
      TextTotal(a.value, w);
      TextTotal(a.value, a.value);
    }
  }

  lemma {:induction false} AcceptedNeedsStream(steps: seq<Step>, m: MappingId)
    requires !StreamKnown(steps, m)
    ensures Accepted(steps, m) == []
  {
    if steps != [] {
      var before := steps[..|steps| - 1];
      assert forall i :: 0 <= i < |before| ==> before[i] == steps[i];
      AcceptedNeedsStream(before, m);
    }
  }

  lemma LatestSnoc(received: Option<Watermark>, accepted: seq<Watermark>, w: Watermark)
    requires IsLatest(received, accepted)
    ensures IsLatest(Some(Later(received, w)), accepted + [w])
  {
    var top := Later(received, w);
    LaterIsMax(received, w);
    forall v | v in accepted + [w]
      ensures !TextLess(top, v)
    {
      if v != w {
        assert AtMost(Some(v), received);
        AtMostTransitive(Some(v), received, Some(top));
      }
    }
    assert w in accepted + [w];
    assert forall v :: v in accepted ==> v in accepted + [w];
  }

  /** Whatever the order and repetition of requests: received is the greatest watermark accepted. */
  lemma {:induction false} ReceivedIsLatest(steps: seq<Step>, m: MappingId)
    requires m in Run(steps).streams
    ensures IsLatest(Run(steps).streams[m].received, Accepted(steps, m))
  {
    StreamsKnown(steps, m);
    var n := |steps| - 1;
    var before, last := Run(steps[..n]), steps[n];
    StreamsKnown(steps[..n], m);
    if m in before.streams {
      ReceivedIsLatest(steps[..n], m);
      StepStream(before, last, m);
      if last.Request? && last.mapping == m {
        LatestSnoc(before.streams[m].received, Accepted(steps[..n], m), last.watermark);
      }
    } else {
      AcceptedNeedsStream(steps[..n], m);
      SeededStreams(before, last, m);
    }
  }

  /** With watermarks of the same widths that is the latest in time. */
  lemma ReceivedIsNewest(steps: seq<Step>, m: MappingId, wall: nat, logical: nat, a: Stamp, b: Stamp)
    requires m in Run(steps).streams && HasWidths(a, wall, logical) && HasWidths(b, wall, logical)
    requires Run(steps).streams[m].received == Some(Written(a)) && Written(b) in Accepted(steps, m)
    ensures !Earlier(a, b)
  {
    ReceivedIsLatest(steps, m);
    EqualWidthsAgree(a, b, wall, logical);
  }

  /** No step moves a watermark of a stream back. */
  lemma WatermarksAdvance(st: State, step: Step, m: MappingId)
    requires m in st.streams
    ensures m in After(st, step).streams
    ensures AtMost(st.streams[m].received, After(st, step).streams[m].received)
    ensures AtMost(st.streams[m].reconciled, After(st, step).streams[m].reconciled)
  {
    StepStream(st, step, m);
    var row := st.streams[m];
    if row.received.Some? {
      TextTotal(row.received.value, row.received.value);
      LaterIsMax(row.reconciled, row.received.value);
    }
    if row.reconciled.Some? {
      TextTotal(row.reconciled.value, row.reconciled.value);
    }
    if step.Request? {
      LaterIsMax(row.received, step.watermark);
    }
  }

  /** Nothing is reconciled that was not received. */
  lemma {:induction false} ReconciledBehind(steps: seq<Step>, m: MappingId)
    requires m in Run(steps).streams
    ensures AtMost(Run(steps).streams[m].reconciled, Run(steps).streams[m].received)
  {
    var n := |steps| - 1;
    var before, last := Run(steps[..n]), steps[n];
    if m in before.streams {
      ReconciledBehind(steps[..n], m);
      StepStream(before, last, m);
      var row := before.streams[m];
      if row.received.Some? {
        TextTotal(row.received.value, row.received.value);
        LaterIsMax(row.reconciled, row.received.value);
      }
      if last.Request? && last.mapping == m {
        LaterIsMax(row.received, last.watermark);
        AtMostTransitive(row.reconciled, row.received, Some(Later(row.received, last.watermark)));
      }
    } else {
      SeededStreams(before, last, m);
    }
  }

  /** The reconciled watermark at the last effective pass that listed the table. */
  ghost function LastListed(steps: seq<Step>, m: MappingId, t: TableName): Option<Watermark> {
    if steps == [] then None
    else
      var n := |steps| - 1;
      if Effective(Run(steps[..n]), steps[n]) && steps[n].mapping == m && t in steps[n].listed && m in Run(steps).streams
      then Run(steps).streams[m].reconciled
      else LastListed(steps[..n], m, t)
  }

  lemma {:induction false} NoneMissing(rows: map<TableId, TableSync>, m: MappingId, listed: seq<TableName>)
    requires FirstMissing(rows, m, listed).None?
    ensures forall t :: t in listed ==> TableId(m, t) in rows
  {
    if listed != [] {
      NoneMissing(rows, m, listed[1..]);
      assert listed == [listed[0]] + listed[1..];
    }
  }

  /** What one step does to the sync watermark of one table. */
  lemma StepTable(st: State, step: Step, id: TableId)
    requires id in st.tables
    ensures id in After(st, step).tables
    ensures After(st, step).tables[id].watermark
      == if Effective(st, step) && id.mapping == step.mapping && id.table in step.listed
         then st.streams[id.mapping].received else st.tables[id].watermark
  {
    if step.Seeding? && step.statements > 0 {
      var k := if step.statements <= |step.helpers| + 1 then step.statements else |step.helpers| + 1;
      SeedTablesKeep(SeedStream(st, step.mapping, step.sourceDatabase), step.mapping, step.helpers[..k - 1], id);
    }
  }

  lemma NewTable(st: State, step: Step, id: TableId)
    requires id !in st.tables && id in After(st, step).tables
    ensures step.Seeding? && After(st, step).tables[id].watermark == None
    ensures step.mapping == id.mapping && exists i :: 0 <= i < |step.helpers| && step.helpers[i].table == id.table
    ensures id.mapping in After(st, step).streams
  {
    var k := if step.statements <= |step.helpers| + 1 then step.statements else |step.helpers| + 1;
    SeedTablesKeep(SeedStream(st, step.mapping, step.sourceDatabase), step.mapping, step.helpers[..k - 1], id);
  }

  /** Effective passes set the sync watermark to the reconciled one: reconciled is never ahead of received. */
  lemma EffectiveSyncs(steps: seq<Step>, step: Step)
    requires Effective(Run(steps), step)
    ensures After(Run(steps), step).streams[step.mapping].reconciled == Run(steps).streams[step.mapping].received
  {
    var row := Run(steps).streams[step.mapping];
    ReconciledBehind(steps, step.mapping);
    if row.reconciled.Some? {
      TextTotal(row.reconciled.value, row.received.value);
    }
  }

  /** Step n is the last effective pass of the mapping. */
  ghost predicate IsLastPass(steps: seq<Step>, m: MappingId, n: nat) {
    && n < |steps| && steps[n].mapping == m && Effective(Run(steps[..n]), steps[n])
    && forall k :: n < k < |steps| && steps[k].mapping == m ==> !Effective(Run(steps[..k]), steps[k])
  }

  lemma LastPassStays(steps: seq<Step>, m: MappingId, n: nat)
    requires steps != [] && IsLastPass(steps[..|steps| - 1], m, n)
    requires steps[|steps| - 1].mapping == m ==> !Effective(Run(steps[..|steps| - 1]), steps[|steps| - 1])
    ensures IsLastPass(steps, m, n) && steps[..|steps| - 1][..n] == steps[..n]
  {
    var shorter := steps[..|steps| - 1];
    forall k | n <= k < |shorter|
      ensures shorter[..k] == steps[..k] && shorter[k] == steps[k]
    {
    }
    hide Effective, Run;
  }

  /** What is reconciled is the greatest watermark accepted before the tracking update of the last effective pass.
      The statements of that pass have run before: what they have worked on is another matter. */
  lemma {:induction false} ReconciledAtLastPass(steps: seq<Step>, m: MappingId)
    requires m in Run(steps).streams && Run(steps).streams[m].reconciled.Some?
    ensures exists n: nat :: IsLastPass(steps, m, n) && IsLatest(Run(steps).streams[m].reconciled, Accepted(steps[..n], m))
  {
    var n := |steps| - 1;
    var before, last := Run(steps[..n]), steps[n];
    if m !in before.streams {
      SeededStreams(before, last, m);
    } else {
      StepStream(before, last, m);
      if Effective(before, last) && last.mapping == m {
        EffectiveSyncs(steps[..n], last);
        ReceivedIsLatest(steps[..n], m);
        assert IsLastPass(steps, m, n);
        hide IsLastPass, IsLatest, Accepted, Effective, After;
      } else {
        ReconciledAtLastPass(steps[..n], m);
        hide IsLastPass, IsLatest, Accepted, Effective, After;
        var p: nat :| IsLastPass(steps[..n], m, p) && IsLatest(before.streams[m].reconciled, Accepted(steps[..n][..p], m));
        LastPassStays(steps, m, p);
      }
    }
  }

  /** In every run a table's sync watermark is the reconciled one at the last effective pass that listed it. */
  lemma {:induction false} SyncIsLastListed(steps: seq<Step>, id: TableId)
    requires id in Run(steps).tables
    ensures id.mapping in Run(steps).streams
    ensures Run(steps).tables[id].watermark == LastListed(steps, id.mapping, id.table)
  {
    var n := |steps| - 1;
    var before, last := Run(steps[..n]), steps[n];
    if id in before.tables {
      SyncIsLastListed(steps[..n], id);
      StepTable(before, last, id);
      StepStream(before, last, id.mapping);
      if Effective(before, last) && last.mapping == id.mapping {
        EffectiveSyncs(steps[..n], last);
      }
    } else {
      NewTable(before, last, id);
      NeverListed(steps[..n], id);
    }
  }

  lemma {:induction false} NeverListed(steps: seq<Step>, id: TableId)
    requires id !in Run(steps).tables
    ensures LastListed(steps, id.mapping, id.table) == None
  {
    if steps != [] {
      var n := |steps| - 1;
      var before, last := Run(steps[..n]), steps[n];
      if id in before.tables {
        StepTable(before, last, id);
      }
      NeverListed(steps[..n], id);
      if Effective(before, last) {
        NoneMissing(before.tables, last.mapping, last.listed);
      }
    }
  }

  /** All steps of a mapping are about the same tables. */
  ghost predicate SameTables(steps: seq<Step>, m: MappingId, tables: set<TableName>) {
    forall i :: 0 <= i < |steps| && steps[i].mapping == m ==>
      && (steps[i].Seeding? ==> forall j :: 0 <= j < |steps[i].helpers| ==> steps[i].helpers[j].table in tables)
      && (steps[i].Success? ==> forall t :: t in tables <==> t in steps[i].listed)
  }

  /** With a fixed set of tables every tracked table is synced as far as the stream is reconciled. */
  lemma {:induction false} TablesInSync(steps: seq<Step>, m: MappingId, tables: set<TableName>, t: TableName)
    requires SameTables(steps, m, tables) && m in Run(steps).streams
    ensures TableId(m, t) in Run(steps).tables ==>
      t in tables && Run(steps).tables[TableId(m, t)].watermark == Run(steps).streams[m].reconciled
    ensures t in tables && Run(steps).streams[m].reconciled.Some? ==> TableId(m, t) in Run(steps).tables
  {
    var n, id := |steps| - 1, TableId(m, t);
    var before, last := Run(steps[..n]), steps[n];
    assert SameTables(steps[..n], m, tables);
    if m in before.streams {
      TablesInSync(steps[..n], m, tables, t);
      StepStream(before, last, m);
      if Effective(before, last) && last.mapping == m {
        EffectiveSyncs(steps[..n], last);
        NoneMissing(before.tables, m, last.listed);
      }
    } else {
      SeededStreams(before, last, m);
      if id in before.tables {
        SyncIsLastListed(steps[..n], id);
      }
    }
    if id in before.tables {
      StepTable(before, last, id);
    } else if id in Run(steps).tables {
      NewTable(before, last, id);
    }
  }

  /** A restart with one more table leaves that table behind the stream until the next effective pass. */
  lemma NewTableLags(steps: seq<Step>, m: MappingId, sourceDatabase: string, h: HelperName)
    requires m in Run(steps).streams && Run(steps).streams[m].reconciled.Some? && TableId(m, h.table) !in Run(steps).tables
    ensures var after := After(Run(steps), Seeding(m, sourceDatabase, [h], 2));
      && m in after.streams && TableId(m, h.table) in after.tables
      && after.tables[TableId(m, h.table)].watermark == None != after.streams[m].reconciled
  {
    var st, step := Run(steps), Seeding(m, sourceDatabase, [h], 2);
    StepStream(st, step, m);
    SeedTablesKeep(SeedStream(st, m, sourceDatabase), m, [h], TableId(m, h.table));
    assert [h][..1] == [h] && [h][0].table == h.table;
  }

  /** A failed pass writes one table's error and nothing else; an effective pass clears its tables' errors. */
  lemma PassTouches(st: State, step: Step, id: TableId)
    requires step.Failure? || Effective(st, step)
    ensures var after := After(st, step);
      && after.tables.Keys == st.tables.Keys
      && (step.Failure? ==> after.streams == st.streams)
      && (step.Failure? && id in st.tables ==>
            after.tables[id] == if id == TableId(step.mapping, step.table)
                                then st.tables[id].(lastError := Some(step.error)) else st.tables[id])
      && (step.Success? && id in st.tables ==>
            after.tables[id].lastError
              == if id.mapping == step.mapping && id.table in step.listed then None else st.tables[id].lastError)
  {
    if step.Failure? {
      var failed := TableId(step.mapping, step.table);
      assert failed in st.tables ==> st.tables[failed := st.tables[failed].(lastError := Some(step.error))].Keys == st.tables.Keys;
    }
  }
}

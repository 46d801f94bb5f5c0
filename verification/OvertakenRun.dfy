/** A run in which a watermark overtakes the pass that leaves it. */
module OvertakenRun {
  import opened HelperPlan
  import opened Options
  import opened Tables
  import opened Deletes
  import opened Reconcile
  import opened Views
  import opened PassRuns
  import opened Overtaking
  import Tracking
  import Ingest

  const T := TableName("public", "t")
  const ONE: Key := [Val(1)]
  const NEW_ROW: Row := map["id" := Val(1)]

  /** One table with nothing in it. */
  const SETUP := Setup(
    "m", map[T := TableSchema(["id"], {}, {}, ["id"], [])], ReconcileOrder([T], [T]),
    map[T := map[]], map[T := Ingest.Contents(map[], multiset{})])

  const NEW_ROWS := [Ingest.Change(Ingest.Operation.UpsertRow, NEW_ROW, Some(NEW_ROW))]

  /** After the upsert of T a batch for T is committed, and then the watermark that stands for it. */
  const OVERTAKEN := [
    Tracked(Tracking.Seeding("m", "s", [Tracking.HelperName(T, "h")], 2)),
    PassBegins,
    StatementRuns,
    BatchCommits(T, NEW_ROWS),
    Tracked(Tracking.Request("m", "1")),
    StatementRuns,
    PassCommits]

  const SEEDED := Tracking.State(
    map["m" := Tracking.StreamState("s", None, None)], map[Tracking.TableId("m", T) := Tracking.TableSync("h", None, None)])
  const RECEIVED := SEEDED.(streams := map["m" := Tracking.StreamState("s", Some("1"), None)])

  const NO_ROWS: Database := map[T := map[]]
  const NOTHING_IN_T := map[T := Ingest.Contents(map[], multiset{})]
  const ONE_IN_T := map[T := Ingest.Contents(map[ONE := NEW_ROW], multiset{})]

  lemma SetupValid()
    ensures ValidSetup(SETUP)
  {
    var db := SETUP.realTables;
    assert Consistent(db, SETUP.schema);
    var order := SETUP.order;
    assert Listed(order.upsertOrder) == {T};
    assert forall n :: 0 <= n <= 1 ==> ParentClosed(Listed(order.upsertOrder[..n]), db, SETUP.schema);
    assert forall n :: 0 <= n < 1 ==> ChildrenGone(order.deleteOrder[n], Listed(order.deleteOrder[..n]), db, SETUP.schema);
  }

  lemma Seeds()
    ensures Tracking.After(Tracking.State(map[], map[]), Tracking.Seeding("m", "s", [Tracking.HelperName(T, "h")], 2)) == SEEDED
  {
    var helpers := [Tracking.HelperName(T, "h")];
    assert helpers[..1] == helpers && helpers[..0] == [];
    var st := Tracking.SeedStream(Tracking.State(map[], map[]), "m", "s");
    assert Tracking.SeedTables(st, "m", helpers[..0]) == st;
  }

  lemma UpsertSeesNothing()
    ensures ApplyStatement(NO_ROWS, NO_ROWS, SETUP.schema, Upsert, T) == Done(NO_ROWS)
  {
    var after := NO_ROWS[T := Upserted(NO_ROWS[T], NO_ROWS[T], SETUP.schema[T])];
    assert after == NO_ROWS && Consistent(after, SETUP.schema);
  }

  lemma DeleteTakesNothing(view: Database)
    requires T in view
    ensures ApplyStatement(NO_ROWS, view, SETUP.schema, Delete, T) == Done(NO_ROWS)
  {
    assert Surplus(NO_ROWS, view, T) == {};
    assert AllRows(NO_ROWS) == {};
    PlainDelete(NO_ROWS, view, SETUP.schema, T);
    assert NO_ROWS[T := Deleted(NO_ROWS[T], view[T])] == NO_ROWS;
  }

  lemma BatchFillsT()
    ensures Ingest.HelperShape(SETUP.schema[T])
    ensures Ingest.ApplyChanges(SETUP.schema[T], Ingest.Contents(map[], multiset{}), NEW_ROWS) == Ingest.Ok(ONE_IN_T[T])
  {
    var s, change := SETUP.schema[T], NEW_ROWS[0];
    assert Ingest.Populated(NEW_ROW, s) == NEW_ROW && KeyOf(NEW_ROW, s.primaryKey) == ONE;
    assert Ingest.Refused(s, change).None?;
    assert Ingest.ApplyChange(s, NOTHING_IN_T[T], change) == Ingest.Ok(ONE_IN_T[T]);
    assert NEW_ROWS[..0] == [];
  }

  lemma NextRun(n: nat)
    requires n < |OVERTAKEN|
    ensures Run(SETUP, OVERTAKEN[..n + 1]) == Next(Run(SETUP, OVERTAKEN[..n]), OVERTAKEN[n], SETUP)
  {
    assert OVERTAKEN[..n + 1][..n] == OVERTAKEN[..n];
    hide Next;
  }

  lemma TwoStatements()
    ensures StatementsOf(SETUP.order) == [Statement(Upsert, T), Statement(Delete, T)]
  {
  }

  lemma NextStatement(helpers: map<TableName, Ingest.Contents>, st: Tracking.State, i: nat)
    requires helpers == NOTHING_IN_T || helpers == ONE_IN_T
    requires i < 2 && (i == 0 ==> helpers == NOTHING_IN_T)
    ensures Next(World(NO_ROWS, helpers, st, Some(Progress(NO_ROWS, i))), StatementRuns, SETUP)
      == World(NO_ROWS, helpers, st, Some(Progress(NO_ROWS, i + 1)))
  {
    TwoStatements();
    if i == 0 {
      assert View(helpers) == NO_ROWS;
      UpsertSeesNothing();
    } else {
      DeleteTakesNothing(View(helpers));
    }
    hide ApplyStatement, StatementsOf, View;
  }

  lemma NextRequest(pass: Option<Progress>)
    ensures Next(World(NO_ROWS, ONE_IN_T, SEEDED, pass), OVERTAKEN[4], SETUP) == World(NO_ROWS, ONE_IN_T, RECEIVED, pass)
  {
    assert Tracking.After(SEEDED, Tracking.Request("m", "1")) == RECEIVED;
    hide Tracking.After;
  }

  lemma NextBatch(st: Tracking.State, pass: Option<Progress>)
    ensures Next(World(NO_ROWS, NOTHING_IN_T, st, pass), BatchCommits(T, NEW_ROWS), SETUP) == World(NO_ROWS, ONE_IN_T, st, pass)
  {
    BatchFillsT();
    hide Ingest.ApplyChanges, Ingest.HelperShape;
  }

  lemma FirstCanExecute()
    ensures CanExecute(World(NO_ROWS, NOTHING_IN_T, SEEDED, Some(Progress(NO_ROWS, 0))), SETUP)
  {
    TwoStatements();
    assert T in View(NOTHING_IN_T);
    hide StatementsOf, View, SEEDED;
  }

  /** Up to the batch, which the upsert has not seen. */
  lemma BatchMissed()
    ensures Run(SETUP, OVERTAKEN[..1]).pass.None? && Run(SETUP, OVERTAKEN[..2]).pass.Some?
    ensures CanExecute(Run(SETUP, OVERTAKEN[..2]), SETUP) && Run(SETUP, OVERTAKEN[..3]).pass.Some?
    ensures Run(SETUP, OVERTAKEN[..4]) == World(NO_ROWS, ONE_IN_T, SEEDED, Some(Progress(NO_ROWS, 1)))
  {
    Seeds();
    FirstCanExecute();
    hide Tracking.After, CanExecute, Applies;
    assert OVERTAKEN[..0] == [];
    NextRun(0);
    NextRun(1);
    assert Run(SETUP, OVERTAKEN[..2]) == World(NO_ROWS, NOTHING_IN_T, SEEDED, Some(Progress(NO_ROWS, 0)));
    NextRun(2);
    NextStatement(NOTHING_IN_T, SEEDED, 0);
    NextRun(3);
    NextBatch(SEEDED, Some(Progress(NO_ROWS, 1)));
    hide Next, Run, SEEDED, NO_ROWS, NOTHING_IN_T, ONE_IN_T, NEW_ROWS;
  }

  lemma TimesPrefix(n: nat)
    requires n < |OVERTAKEN| && Run(SETUP, OVERTAKEN[..n + 1]).pass.Some?
    ensures var more := if OVERTAKEN[n].StatementRuns? && CanExecute(Run(SETUP, OVERTAKEN[..n]), SETUP) then [n] else [];
      Times(SETUP, OVERTAKEN[..n + 1]) == Times(SETUP, OVERTAKEN[..n]) + more
  {
    assert OVERTAKEN[..n + 1][..n] == OVERTAKEN[..n];
    TimesSnoc(SETUP, OVERTAKEN[..n + 1]);
    hide Run, CanExecute;
  }

  lemma FirstStatement()
    ensures First(SETUP, OVERTAKEN, 6) == 2
  {
    hide Run, CanExecute, Times, SETUP, NO_ROWS, ONE_IN_T, SEEDED, RECEIVED;
    BatchMissed();
    WatermarkSeen();
    TimesOfNone(SETUP, OVERTAKEN[..1]);
    TimesPrefix(1);
    TimesPrefix(2);
    TimesPrefix(3);
    TimesPrefix(4);
    TimesPrefix(5);
    assert Times(SETUP, OVERTAKEN[..3]) == [2];
  }

  /** Up to the tracking update, which sees the watermark. */
  lemma WatermarkSeen()
    ensures Run(SETUP, OVERTAKEN[..5]).pass.Some?
    ensures Run(SETUP, OVERTAKEN[..6]) == World(NO_ROWS, ONE_IN_T, RECEIVED, Some(Progress(NO_ROWS, 2)))
  {
    BatchMissed();
    hide Run, CanExecute, NO_ROWS, NOTHING_IN_T, ONE_IN_T, NEW_ROWS;
    NextRequest(Some(Progress(NO_ROWS, 1)));
    NextRun(4);
    hide Next;
    NextRun(5);
    NextStatement(ONE_IN_T, RECEIVED, 1);
  }

  lemma Succeeds()
    ensures Tracking.Effective(RECEIVED, Success(SETUP)) && Tracking.Succeed(RECEIVED, "m", [T]).1.Persisted?
  {
    assert [T][1..] == [];
    assert Tracking.FirstMissing(RECEIVED.tables, "m", [T][1..]).None?;
    assert Tracking.FirstMissing(RECEIVED.tables, "m", [T]).None?;
  }

  lemma Commits()
    ensures Complete(Run(SETUP, OVERTAKEN[..6]), SETUP)
    ensures Run(SETUP, OVERTAKEN).realTables == NO_ROWS
  {
    WatermarkSeen();
    TwoStatements();
    Succeeds();
    NextRun(6);
    assert OVERTAKEN[..7] == OVERTAKEN;
    hide Run, StatementsOf, Tracking.Succeed, NO_ROWS, ONE_IN_T, RECEIVED;
  }

  /** The pass leaves the watermark reconciled, but not the row that was committed before the watermark was accepted:
      the watermark came after the pass's first statement. */
  lemma OvertakenPass()
    ensures ValidSetup(SETUP) && EffectiveAt(SETUP, OVERTAKEN, 6)
    ensures Reconciled(SETUP, OVERTAKEN) == Some("1") && AcceptedAt(SETUP, OVERTAKEN, 4, "1")
    ensures !AcceptedBefore(SETUP, OVERTAKEN, First(SETUP, OVERTAKEN, 6), "1")
    ensures Overtaken(SETUP, OVERTAKEN, First(SETUP, OVERTAKEN, 6), 6)
    ensures T in Run(SETUP, OVERTAKEN[..4]).helpers && ONE in Run(SETUP, OVERTAKEN[..4]).helpers[T].keyed
    ensures T in Run(SETUP, OVERTAKEN).realTables && ONE !in Run(SETUP, OVERTAKEN).realTables[T]
  {
    SetupValid();
    BatchMissed();
    WatermarkSeen();
    Succeeds();
    Commits();
    FirstStatement();
    hide Run, ValidSetup, Complete, Tracking.Effective, First, Overtaken;
    assert EffectiveAt(SETUP, OVERTAKEN, 6);
    CommitReadsReceived(SETUP, OVERTAKEN, 6);
    assert OVERTAKEN[..7] == OVERTAKEN;
    AcceptedUnlessOvertaken(SETUP, OVERTAKEN, 6);
  }
}

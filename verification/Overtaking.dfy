/** What the reconciled watermark stands for, and the runs in which a request overtakes the pass that leaves it. */
module Overtaking {
  import opened HelperPlan
  import opened Texts
  import opened Watermarks
  import opened Tables
  import opened Reconcile
  import opened Views
  import opened PassRuns
  import Tracking
  import Ingest

  /** The first statement of the pass that event u commits. */
  ghost function First(s: Setup, events: seq<Event>, u: nat): (f: nat)
    requires u <= |events|
    ensures f <= u
  {
    var times := Times(s, events[..u]);
    if times == [] then u else times[0]
  }

  /** Between events f and u a watermark is accepted that is greater than all accepted before. */
  ghost predicate Overtaken(s: Setup, events: seq<Event>, f: nat, u: nat) {
    exists b: nat, v :: f <= b < u && AcceptedAt(s, events, b, v)
      && forall x :: AcceptedBefore(s, events, f, x) ==> TextLess(x, v)
  }

  /** The watermark that a pass leaves was accepted before its first statement exactly if no greater one is accepted
      between that statement and the tracking update. */
  lemma AcceptedUnlessOvertaken(s: Setup, events: seq<Event>, u: nat)
    requires EffectiveAt(s, events, u)
    ensures Reconciled(s, events[..u + 1]).Some?
    ensures AcceptedBefore(s, events, First(s, events, u), Reconciled(s, events[..u + 1]).value)
      <==> !Overtaken(s, events, First(s, events, u), u)
  {
    var f := First(s, events, u);
    CommitReadsReceived(s, events, u);
    var w := Reconciled(s, events[..u + 1]).value;
    hide Reconciled, EffectiveAt, First, AcceptedAt;
    assert IsGreatest(s, events, u, w);
    if AcceptedBefore(s, events, f, w) {
      forall b: nat, v | f <= b < u && AcceptedAt(s, events, b, v)
        ensures !TextLess(w, v)
      {
        assert AcceptedBefore(s, events, u, v);
      }
    } else {
      var b: nat :| b < u && AcceptedAt(s, events, b, w);
      forall x | AcceptedBefore(s, events, f, x)
        ensures TextLess(x, w)
      {
        assert AcceptedBefore(s, events, u, x);
        TextTotal(x, w);
      }
    }
  }

  lemma HelperShapes(s: Setup)
    requires ValidSetup(s)
    ensures forall t :: t in s.helpers ==> t in s.schema && Ingest.HelperShape(s.schema[t])
  {
    assert s.helpers.Keys <= s.schema.Keys;
    hide Sound, Plans, HelperRows;
  }

  /** Statement i of the pass that event u commits has worked on the changes committed to table t before event a. */
  ghost predicate HasSeen(s: Setup, events: seq<Event>, u: nat, a: nat, i: nat, t: TableName)
    requires u <= |events| && a <= u && i < |Times(s, events[..u])|
  {
    var log := Log(s, events[..Times(s, events[..u])[i]], t);
    && t in SeenAt(s, events, u)[i] && t in s.schema && Ingest.HelperShape(s.schema[t])
    && t in s.helpers && Log(s, events[..a], t) <= log
    && Ingest.ApplyChanges(s.schema[t], s.helpers[t], log).Ok?
    && SeenAt(s, events, u)[i][t] == Ingest.ApplyChanges(s.schema[t], s.helpers[t], log).contents.keyed
  }

  /** Every statement of a pass has worked on all changes committed before event a, if its first one came later. */
  lemma StatementsSee(s: Setup, events: seq<Event>, u: nat, a: nat, i: nat, t: TableName)
    requires ValidSetup(s) && u <= |events| && a <= First(s, events, u) && i < |Times(s, events[..u])| && t in s.helpers
    ensures HasSeen(s, events, u, a, i, t)
  {
    var at := Times(s, events[..u])[i];
    HelperShapes(s);
    assert events[..u][..at] == events[..at];
    assert a <= at;
    hide ValidSetup, Times, First, Log, Run, Ingest.HelperShape, Ingest.ApplyChanges;
    HelpersAreLog(s, events[..at], t);
    LogGrows(s, events, t, a, at);
  }

  ghost predicate WorkedOn(s: Setup, events: seq<Event>, u: nat, a: nat)
    requires u <= |events| && a <= u
  {
    forall i, t :: 0 <= i < |Times(s, events[..u])| && t in s.helpers ==> HasSeen(s, events, u, a, i, t)
  }

  lemma AllStatementsSee(s: Setup, events: seq<Event>, u: nat, a: nat)
    requires ValidSetup(s) && u <= |events| && a <= First(s, events, u)
    ensures WorkedOn(s, events, u, a)
  {
    hide ValidSetup, Times, First, HasSeen;
    forall i, t | 0 <= i < |Times(s, events[..u])| && t in s.helpers
      ensures HasSeen(s, events, u, a, i, t)
    {
      StatementsSee(s, events, u, a, i, t);
    }
  }

  /** Of the changes to table t committed from event a to event b none is about key k. */
  ghost predicate Untouched(s: Setup, events: seq<Event>, a: nat, b: nat, t: TableName, k: Key)
    requires a <= b <= |events|
  {
    t in s.schema && Ingest.HelperShape(s.schema[t]) &&
    var log := Log(s, events[..b], t);
    forall j :: |Log(s, events[..a], t)| <= j < |log| ==>
      Ingest.Refused(s.schema[t], log[j]).None? && Ingest.TouchedKey(s.schema[t], log[j]) != k
  }

  lemma {:induction false} UntouchedStays(table: TableSchema, contents: Ingest.Contents, rows: seq<Ingest.Change>, n: nat, k: Key)
    requires Ingest.HelperShape(table) && table.primaryKey != [] && n <= |rows|
    requires Ingest.ApplyChanges(table, contents, rows[..n]).Ok?
    requires forall j :: n <= j < |rows| ==> Ingest.Refused(table, rows[j]).None? && Ingest.TouchedKey(table, rows[j]) != k
    ensures var r := Ingest.ApplyChanges(table, contents, rows);
      r.Ok? && Ingest.Lookup(r.contents.keyed, k) == Ingest.Lookup(Ingest.ApplyChanges(table, contents, rows[..n]).contents.keyed, k)
  {
    if n == |rows| {
      assert rows[..n] == rows;
    } else {
      var m := |rows| - 1;
      assert rows[..m][..n] == rows[..n];
      UntouchedStays(table, contents, rows[..m], n, k);
      Ingest.ChangeEffect(table, Ingest.ApplyChanges(table, contents, rows[..m]).contents, rows[m], k);
      hide Ingest.Mutated, Ingest.TouchedKey, Ingest.Refused, Ingest.Lookup;
    }
  }

  lemma SameRow(s: Setup, events: seq<Event>, a: nat, b: nat, t: TableName, k: Key)
    requires a <= b <= |events| && Untouched(s, events, a, b, t, k)
    requires t in s.helpers && s.schema[t].primaryKey != []
    ensures ShownIn(View(Run(s, events[..b]).helpers), s.schema, t, k) == ShownIn(View(Run(s, events[..a]).helpers), s.schema, t, k)
  {
    HelpersAreLog(s, events[..a], t);
    HelpersAreLog(s, events[..b], t);
    LogGrows(s, events, t, a, b);
    var log, n := Log(s, events[..b], t), |Log(s, events[..a], t)|;
    assert log[..n] == Log(s, events[..a], t);
    hide Log, Run, Ingest.ApplyChanges, Ingest.Refused, Ingest.TouchedKey, Narrowed;
    UntouchedStays(s.schema[t], s.helpers[t], log, n, k);
  }

  lemma UntouchedEarlier(s: Setup, events: seq<Event>, a: nat, b: nat, c: nat, t: TableName, k: Key)
    requires a <= b <= c <= |events| && Untouched(s, events, a, c, t, k)
    ensures Untouched(s, events, a, b, t, k)
  {
    LogGrows(s, events, t, b, c);
    hide Log, Ingest.Refused, Ingest.TouchedKey;
  }

  /** The real tables after an effective pass stay until the next one. */
  lemma {:induction false} RealUntilNext(s: Setup, events: seq<Event>, u: nat, n: nat)
    requires LastAt(s, events, u) && u < n <= |events|
    ensures Run(s, events[..n]).realTables == Run(s, events[..u + 1]).realTables
    ensures HasReceived(Run(s, events[..n]), s)
  {
    RunPrefix(s, events, n - 1);
    if n == u + 1 {
      CommitReadsReceived(s, events, u);
      assert HasReceived(Run(s, events[..u]), s);
      hide Run, Next, LastAt;
      StaysReceived(Run(s, events[..u]), events[u], s);
    } else {
      RealUntilNext(s, events, u, n - 1);
      assert !EffectiveAt(s, events, n - 1);
      hide Run, Next, EffectiveAt, LastAt, HasReceived, CommitsAt;
      StaysReceived(Run(s, events[..n - 1]), events[n - 1], s);
      NotEffective(s, events, n - 1);
      assert events[..n][..n - 1] == events[..n - 1];
      RealStays(s, events[..n]);
    }
  }

  predicate HasReceived(w: World, s: Setup) {
    s.mapping in w.tracking.streams && w.tracking.streams[s.mapping].received.Some?
  }

  lemma StaysReceived(w: World, e: Event, s: Setup)
    requires HasReceived(w, s)
    ensures HasReceived(Next(w, e, s), s)
  {
    NextTracks(w, e, s);
    var steps := StepsOf(w, e, s);
    hide Next, StepsOf;
    if steps != [] {
      Tracking.StepStream(w.tracking, steps[0], s.mapping);
    }
  }

  /** Once a watermark is received, every commit is effective. */
  lemma NotEffective(s: Setup, events: seq<Event>, n: nat)
    requires n < |events| && !EffectiveAt(s, events, n) && HasReceived(Run(s, events[..n]), s)
    ensures !CommitsAt(s, events[..n + 1], n)
  {
    assert events[..n + 1][..n] == events[..n];
    hide Run;
  }

  /** In every run the reconciled watermark is the greatest one accepted before the last effective pass was committed.
      It was accepted before that pass's first statement exactly if no greater one came during the pass, and then all
      statements of the pass have worked on the changes committed before it. */
  lemma ReconciledStandsFor(s: Setup, events: seq<Event>)
    requires ValidSetup(s) && Reconciled(s, events).Some?
    ensures exists u: nat :: LeftAt(s, events, u) && StandsFor(s, events, u, Reconciled(s, events).value)
  {
    hide ValidSetup;
    ReconciledAtLastCommit(s, events);
    var u: nat :| LeftAt(s, events, u);
    var w := Reconciled(s, events).value;
    AcceptedUnlessOvertaken(s, events, u);
    assert u < |events|;
    hide Reconciled, IsGreatest, EffectiveAt, First, Overtaken, WorkedOn, AcceptedAt;
    forall a: nat | a < First(s, events, u) && AcceptedAt(s, events, a, w)
      ensures WorkedOn(s, events, u, a)
    {
      AllStatementsSee(s, events, u, a);
    }
    assert StandsFor(s, events, u, w);
  }

  ghost predicate StandsFor(s: Setup, events: seq<Event>, u: nat, w: Watermark) {
    && u < |events|
    && (AcceptedBefore(s, events, First(s, events, u), w) <==> !Overtaken(s, events, First(s, events, u), u))
    && forall a: nat :: a < First(s, events, u) && AcceptedAt(s, events, a, w) ==> WorkedOn(s, events, u, a)
  }

  /** The last statement of the pass that event u commits. */
  ghost function Final(s: Setup, events: seq<Event>, u: nat): (f: nat)
    requires u <= |events|
    ensures First(s, events, u) <= f <= u
  {
    var times := Times(s, events[..u]);
    if times == [] then u else times[|times| - 1]
  }

  /** An ON DELETE action of that pass spreads. */
  ghost predicate SpreadsAt(s: Setup, events: seq<Event>, u: nat)
    requires u <= |events|
  {
    var db, views := Run(s, events[..u]).realTables, SeenAt(s, events, u);
    Executable(db, views, s.schema, StatementsOf(s.order)) && Spreads(db, views, s.schema, StatementsOf(s.order))
  }

  lemma SeenSameRow(s: Setup, events: seq<Event>, u: nat, a: nat, t: TableName, k: Key)
    requires u <= |events| && a <= First(s, events, u) && Untouched(s, events, a, Final(s, events, u), t, k)
    requires t in s.helpers && s.schema[t].primaryKey != []
    ensures forall i :: 0 <= i < |SeenAt(s, events, u)| ==>
      ShownIn(SeenAt(s, events, u)[i], s.schema, t, k) == ShownIn(View(Run(s, events[..a]).helpers), s.schema, t, k)
  {
    var times := Times(s, events[..u]);
    hide Run, Times, ShownIn, View, Untouched;
    forall i | 0 <= i < |times|
      ensures ShownIn(SeenAt(s, events, u)[i], s.schema, t, k) == ShownIn(View(Run(s, events[..a]).helpers), s.schema, t, k)
    {
      assert events[..u][..times[i]] == events[..times[i]];
      UntouchedEarlier(s, events, a, times[i], Final(s, events, u), t, k);
      SameRow(s, events, a, times[i], t, k);
    }
  }

  /** The pass that event u commits, in terms of its statements and what they have seen. */
  lemma LastPassRan(s: Setup, events: seq<Event>, u: nat)
    requires ValidSetup(s) && LastAt(s, events, u)
    ensures var db, views := Run(s, events[..u]).realTables, SeenAt(s, events, u);
      && db.Keys == s.realTables.Keys && Sound(db, s.schema)
      && Executable(db, views, s.schema, StatementsOf(s.order))
      && RunAll(db, views, s.schema, StatementsOf(s.order)) == Done(Run(s, events).realTables)
  {
    assert events[..|events|] == events;
    RealUntilNext(s, events, u, |events|);
    EffectiveCommits(s, events, u);
    RunSound(s, events[..u]);
    hide Run, SeenAt, CommitsAt, ValidSetup, StatementsOf, Executable, RunAll, Sound;
    CommittedPass(s, events, u);
  }

  /** Where no action spreads: if event a came before the pass's first statement, and no change to key k is committed
      from a until its last one, the real row under k is the helper row of event a.  So with a the acceptance of the
      reconciled watermark, the real tables have everything that the watermark stands for. */
  lemma ReconciledRow(s: Setup, events: seq<Event>, u: nat, a: nat, t: TableName, k: Key)
    requires ValidSetup(s) && LastAt(s, events, u) && a <= First(s, events, u)
    requires t in s.helpers && Untouched(s, events, a, Final(s, events, u), t, k) && !SpreadsAt(s, events, u)
    ensures RowIn(Run(s, events).realTables, t, k) == ShownIn(View(Run(s, events[..a]).helpers), s.schema, t, k)
  {
    LastPassRan(s, events, u);
    SeenFits(s, events, u);
    InOrder(s, t);
    var db, views := Run(s, events[..u]).realTables, SeenAt(s, events, u);
    hide Run, SeenAt, ValidSetup, LastAt, CommitsAt, Untouched, First, Final, StatementsOf, HelperTables, Sound, ShownIn, View, RowIn;
    hide RunAll, Executable, Spreads;
    RanHasKeys(db, views, s.schema, s.order, t);
    SeenSameRow(s, events, u, a, t, k);
    SteadyKey(db, views, s.schema, s.order, t, k, ShownIn(View(Run(s, events[..a]).helpers), s.schema, t, k));
  }

  lemma EffectiveCommits(s: Setup, events: seq<Event>, u: nat)
    requires EffectiveAt(s, events, u)
    ensures CommitsAt(s, events, u)
  {
    hide Run;
  }

  lemma InOrder(s: Setup, t: TableName)
    requires ValidSetup(s) && t in s.helpers
    ensures t in s.schema && t in s.order.upsertOrder && t in s.order.deleteOrder
  {
    assert t in Listed(s.order.upsertOrder) && t in Listed(s.order.deleteOrder);
  }

  /** An executed upsert had a primary key to work with. */
  lemma RanHasKeys(db: Database, views: seq<Database>, schema: ValidatedSchema, order: ReconcileOrder, t: TableName)
    requires Executable(db, views, schema, StatementsOf(order)) && RunAll(db, views, schema, StatementsOf(order)).Done?
    requires t in order.upsertOrder
    ensures t in schema && schema[t].primaryKey != []
  {
    var i :| 0 <= i < |order.upsertOrder| && order.upsertOrder[i] == t;
    assert StatementsOf(order)[i] == Statement(Upsert, t);
    hide StatementsOf;
    StatementHasKey(db, views, schema, StatementsOf(order), i);
  }

  lemma {:induction false} StatementHasKey(
    db: Database, views: seq<Database>, schema: ValidatedSchema, statements: seq<Statement>, i: nat)
    requires Executable(db, views, schema, statements) && RunAll(db, views, schema, statements).Done? && i < |statements|
    ensures statements[i].table in schema && schema[statements[i].table].primaryKey != []
  {
    var n := |statements| - 1;
    if i < n {
      StatementHasKey(db, views[..n], schema, statements[..n], i);
    }
  }

  lemma PlansStay(s: Setup, db: Database)
    requires ValidSetup(s) && db.Keys == s.realTables.Keys
    ensures db.Keys <= s.schema.Keys && Plans(s.order, db, s.schema)
  {
    PlansAlike(s.order, s.realTables, db, s.schema);
  }

  lemma LogBetween(s: Setup, events: seq<Event>, t: TableName, a: nat, b: nat, c: nat)
    requires a <= b <= c <= |events| && Log(s, events[..a], t) == Log(s, events[..c], t)
    ensures Log(s, events[..b], t) == Log(s, events[..a], t)
  {
    LogGrows(s, events, t, a, b);
    LogGrows(s, events, t, b, c);
    hide Log;
  }

  lemma SameContents(s: Setup, events: seq<Event>, a: nat, b: nat, t: TableName)
    requires t in s.helpers && t in s.schema && Ingest.HelperShape(s.schema[t])
    requires a <= b <= |events| && Log(s, events[..b], t) == Log(s, events[..a], t)
    ensures t in Run(s, events[..a]).helpers && t in Run(s, events[..b]).helpers
    ensures Run(s, events[..b]).helpers[t] == Run(s, events[..a]).helpers[t]
  {
    HelpersAreLog(s, events[..a], t);
    HelpersAreLog(s, events[..b], t);
    hide Run, Log, Ingest.ApplyChanges;
  }

  lemma HelperTablesStay(s: Setup, events: seq<Event>)
    requires ValidSetup(s)
    ensures Run(s, events).helpers.Keys == s.helpers.Keys
  {
    RunShaped(s, events);
    hide ValidSetup, Run;
  }

  lemma SameView(s: Setup, events: seq<Event>, a: nat, b: nat)
    requires ValidSetup(s) && a <= b <= |events|
    requires forall t :: t in s.helpers ==> Log(s, events[..b], t) == Log(s, events[..a], t)
    ensures View(Run(s, events[..b]).helpers) == View(Run(s, events[..a]).helpers)
  {
    hide ValidSetup, Run, Log, Ingest.HelperShape;
    HelperTablesStay(s, events[..a]);
    HelperTablesStay(s, events[..b]);
    HelperShapes(s);
    forall t | t in s.helpers
      ensures Run(s, events[..b]).helpers[t] == Run(s, events[..a]).helpers[t]
    {
      SameContents(s, events, a, b, t);
    }
  }

  /** No batch for the mapping's tables is committed from the first to the last statement of the pass. */
  ghost predicate Quiet(s: Setup, events: seq<Event>, u: nat)
    requires u <= |events|
  {
    forall t :: t in s.helpers ==> Log(s, events[..First(s, events, u)], t) == Log(s, events[..Final(s, events, u)], t)
  }

  lemma QuietViews(s: Setup, events: seq<Event>, u: nat)
    requires ValidSetup(s) && u <= |events| && Quiet(s, events, u)
    ensures Steady(SeenAt(s, events, u), View(Run(s, events[..First(s, events, u)]).helpers))
  {
    var times, f, l := Times(s, events[..u]), First(s, events, u), Final(s, events, u);
    hide Run, Times, View, ValidSetup, Log;
    forall i | 0 <= i < |times|
      ensures SeenAt(s, events, u)[i] == View(Run(s, events[..f]).helpers)
    {
      assert events[..u][..times[i]] == events[..times[i]];
      forall t | t in s.helpers
        ensures Log(s, events[..times[i]], t) == Log(s, events[..f], t)
      {
        LogBetween(s, events, t, f, times[i], l);
      }
      SameView(s, events, f, times[i]);
    }
  }

  lemma FirstViewFits(s: Setup, events: seq<Event>, u: nat)
    requires ValidSetup(s) && u <= |events|
    ensures var helper := View(Run(s, events[..First(s, events, u)]).helpers);
      helper.Keys == s.realTables.Keys && helper.Keys <= s.schema.Keys && HelperTables(helper, s.schema)
  {
    RunShaped(s, events[..First(s, events, u)]);
    hide Run, First, HelperTables, HelperRows, Sound, Plans;
  }

  /** A quiet pass makes the real tables equal to the helper tables of its first statement exactly if these are closed
      under the foreign keys. */
  lemma QuietPass(s: Setup, events: seq<Event>, u: nat)
    requires ValidSetup(s) && LastAt(s, events, u) && Quiet(s, events, u)
    ensures var helper := View(Run(s, events[..First(s, events, u)]).helpers);
      && helper.Keys <= s.schema.Keys
      && (Run(s, events).realTables == ShownAll(helper, s.schema) <==> Closed(helper, s.schema))
  {
    assert u < |events|;
    hide Run, SeenAt, LastAt, First, StatementsOf, ValidSetup, Quiet, Plans, Sound, HelperTables, View;
    hide RunAll, Executable, Steady, ShownAll, Closed;
    LastPassRan(s, events, u);
    QuietViews(s, events, u);
    FirstViewFits(s, events, u);
    var db, views := Run(s, events[..u]).realTables, SeenAt(s, events, u);
    var helper := View(Run(s, events[..First(s, events, u)]).helpers);
    PlansStay(s, db);
    SteadyEqualizes(db, views, helper, s.schema, s.order);
  }
}

/** A pass as one transaction over the real tables and the tracking tables. */
module ReconcileRun {
  import opened HelperPlan
  import opened Options
  import opened Tables
  import opened Reconcile
  import opened Views
  import Tracking

  datatype PassOutcome = Succeeded | ApplyFailedRecorded(failed: Statement) | RuntimeError

  /** What may go wrong around the statements of a pass: the connection, statement number faultAt if it is reached,
      the rollback, the commit, the record of a failure, and the refresh of the metrics at the end. */
  datatype Faults =
    Faults(connects: bool, faultAt: nat, detail: string, rollsBack: bool, commits: bool, records: bool, refreshes: bool)

  /** What a pass has left in the database. */
  datatype Effect = Untouched | Committed | FailureRecorded(failed: Statement)

  function RenderedError(failed: Statement, detail: string): string {
    "reconcile " + (if failed.phase == Upsert then "upsert" else "delete") + " failed for "
    + failed.table.schema + "." + failed.table.table + ": " + detail
  }

  /** How a pass can end when statement number faultAt, if it is reached, fails for a reason of its own. */
  ghost predicate EndsWith(
    db: Database, views: seq<Database>, schema: ValidatedSchema, order: ReconcileOrder, faultAt: nat,
    failure: Option<Statement>, after: Database)
    requires Executable(db, views, schema, StatementsOf(order))
  {
    var r := RunAll(db, views, schema, StatementsOf(order));
    match failure
    case None => r == Done(after) && |StatementsOf(order)| <= faultAt
    case Some(s) =>
      r == ApplyFailure(s.phase, s.table) || (faultAt < |StatementsOf(order)| && s == StatementsOf(order)[faultAt])
  }

  lemma UpsertsEnd(
    db: Database, views: seq<Database>, schema: ValidatedSchema, order: ReconcileOrder, faultAt: nat,
    failed: Statement, faulted: bool, after: Database)
    requires Executable(db, views, schema, StatementsOf(order))
    requires Executable(db, views[..|order.upsertOrder|], schema, InPhase(Upsert, order.upsertOrder))
    requires if faulted then faultAt < |order.upsertOrder| && failed == Statement(Upsert, order.upsertOrder[faultAt])
      else RunAll(db, views[..|order.upsertOrder|], schema, InPhase(Upsert, order.upsertOrder)) == ApplyFailure(failed.phase, failed.table)
    ensures EndsWith(db, views, schema, order, faultAt, Some(failed), after)
  {
    RunAllAppend(db, views, schema, InPhase(Upsert, order.upsertOrder), InPhase(Delete, order.deleteOrder));
    hide RunAll, Executable;
  }

  lemma DeletesEnd(
    db: Database, views: seq<Database>, schema: ValidatedSchema, order: ReconcileOrder, faultAt: nat,
    upserted: Database, failure: Option<Statement>, faulted: bool, after: Database)
    requires Executable(db, views, schema, StatementsOf(order)) && |order.upsertOrder| <= faultAt
    requires Executable(db, views[..|order.upsertOrder|], schema, InPhase(Upsert, order.upsertOrder))
    requires Executable(upserted, views[|order.upsertOrder|..], schema, InPhase(Delete, order.deleteOrder))
    requires RunAll(db, views[..|order.upsertOrder|], schema, InPhase(Upsert, order.upsertOrder)) == Done(upserted)
    requires var r, i := RunAll(upserted, views[|order.upsertOrder|..], schema, InPhase(Delete, order.deleteOrder)), faultAt - |order.upsertOrder|;
      if failure.None? then r == Done(after) && |order.deleteOrder| <= i
      else if faulted then i < |order.deleteOrder| && failure.value == Statement(Delete, order.deleteOrder[i])
      else r == ApplyFailure(failure.value.phase, failure.value.table)
    ensures EndsWith(db, views, schema, order, faultAt, failure, after)
  {
    RunAllAppend(db, views, schema, InPhase(Upsert, order.upsertOrder), InPhase(Delete, order.deleteOrder));
    hide RunAll, Executable;
  }

  class Destination {
    var realTables: Database
    const tracking: Tracking.TrackingTables

    constructor (realTables: Database, tracking: Tracking.TrackingTables)
      ensures this.realTables == realTables && this.tracking == tracking
    {
      this.realTables, this.tracking := realTables, tracking;
    }

    /** Runs one phase; its statement number i sees views[i], and fails when i equals faultAt. */
    method ApplyPhase(views: seq<Database>, schema: ValidatedSchema, phase: Phase, tables: seq<TableName>, faultAt: int)
      returns (failed: Option<Statement>, ghost faulted: bool)
      requires Executable(realTables, views, schema, InPhase(phase, tables))
      modifies this`realTables
      ensures realTables.Keys == old(realTables.Keys)
      ensures failed.None? ==> RunAll(old(realTables), views, schema, InPhase(phase, tables)) == Done(realTables)
      ensures failed.None? ==> !(0 <= faultAt < |tables|)
      ensures failed.Some? && !faulted ==>
        RunAll(old(realTables), views, schema, InPhase(phase, tables)) == ApplyFailure(failed.value.phase, failed.value.table)
      ensures failed.Some? && faulted ==> 0 <= faultAt < |tables| && failed.value == Statement(phase, tables[faultAt])
    {
      faulted := false;
      ghost var before, statements := realTables, InPhase(phase, tables);
      assert RunAll(before, views[..0], schema, statements[..0]) == Done(before);
      hide RunAll, ApplyStatement;
      var i := 0;
      while i < |tables|
        invariant 0 <= i <= |tables| && realTables.Keys == before.Keys
        invariant RunAll(before, views[..i], schema, statements[..i]) == Done(realTables)
        invariant !(0 <= faultAt < i)
      {
        if i == faultAt {
          faulted := true;
          return Some(Statement(phase, tables[i])), faulted;
        }
        RunAllSnoc(before, views, schema, statements, i);
        assert statements[i] == Statement(phase, tables[i]);
        var applied := ApplyStatement(realTables, views[i], schema, phase, tables[i]);
        if applied.ApplyFailure? {
          return Some(Statement(applied.phase, applied.table)), faulted;
        }
        realTables := applied.db;
        i := i + 1;
      }
      assert views[..i] == views && statements[..i] == statements;
      failed := None;
    }

    method ApplyReconcilePass(views: seq<Database>, schema: ValidatedSchema, order: ReconcileOrder, faultAt: nat)
      returns (failure: Option<Statement>)
      requires Executable(realTables, views, schema, StatementsOf(order))
      modifies this`realTables
      ensures EndsWith(old(realTables), views, schema, order, faultAt, failure, realTables)
    {
      ghost var before := realTables;
      var upserts := |order.upsertOrder|;
      SplitViews(realTables, views, schema, order);
      ghost var faulted;
      hide RunAll, EndsWith, StatementsOf;
      failure, faulted := ApplyPhase(views[..upserts], schema, Upsert, order.upsertOrder, faultAt);
      if failure.Some? {
        UpsertsEnd(before, views, schema, order, faultAt, failure.value, faulted, realTables);
      } else {
        ghost var upserted := realTables;
        failure, faulted := ApplyPhase(views[upserts..], schema, Delete, order.deleteOrder, faultAt - upserts);
        DeletesEnd(before, views, schema, order, faultAt, upserted, failure, faulted, realTables);
      }
    }

    /** One pass: all statements, each seeing the helper tables of its moment, and the tracking update are committed
        together, or the real tables stay as they were.  A failed refresh makes an error of what has been committed. */
    method RunReconcilePass(
      m: Tracking.MappingId, views: seq<Database>, schema: ValidatedSchema, order: ReconcileOrder, faults: Faults)
      returns (outcome: PassOutcome, ghost effect: Effect)
      requires Executable(realTables, views, schema, StatementsOf(order))
      modifies this`realTables, tracking
      ensures effect.Committed? ==>
        && RunAll(old(realTables), views, schema, StatementsOf(order)) == Done(realTables)
        && (tracking.Contents(), Tracking.Persisted) == Tracking.Succeed(old(tracking.Contents()), m, order.upsertOrder)
      ensures !effect.Committed? ==> realTables == old(realTables)
      ensures effect.Untouched? ==> tracking.Contents() == old(tracking.Contents())
      ensures effect.FailureRecorded? ==>
        && EndsWith(old(realTables), views, schema, order, faults.faultAt, Some(effect.failed), realTables)
        && (tracking.Contents(), Tracking.Persisted)
             == Tracking.Fail(old(tracking.Contents()), m, effect.failed.table, RenderedError(effect.failed, faults.detail))
      ensures effect.Committed? <==>
        && faults.connects && |StatementsOf(order)| <= faults.faultAt && faults.commits
        && RunAll(old(realTables), views, schema, StatementsOf(order)).Done?
        && Tracking.Succeed(old(tracking.Contents()), m, order.upsertOrder).1.Persisted?
      ensures outcome == match effect
        case Untouched => RuntimeError
        case Committed => if faults.refreshes then Succeeded else RuntimeError
        case FailureRecorded(failed) => if faults.refreshes then ApplyFailedRecorded(failed) else RuntimeError
    {
      hide RunAll, Tracking.Succeed, Tracking.Fail, Executable;
      effect := Untouched;
      if !faults.connects {
        return RuntimeError, effect;
      }
      var savedTables, savedStreams, savedSync := realTables, tracking.streams, tracking.tables;
      var failure := ApplyReconcilePass(views, schema, order, faults.faultAt);
      if failure.None? {
        var persisted := tracking.PersistReconcileSuccess(m, order.upsertOrder);
        if !persisted.Persisted? || !faults.commits {
          realTables := savedTables;
          tracking.streams, tracking.tables := savedStreams, savedSync;
          return RuntimeError, effect;
        }
        effect := Committed;
        outcome := if faults.refreshes then Succeeded else RuntimeError;
      } else {
        realTables := savedTables;
        outcome, effect := RecordFailure(m, failure.value, faults);
      }
    }

    /** Records a failed pass once its transaction is rolled back. */
    method RecordFailure(m: Tracking.MappingId, failed: Statement, faults: Faults)
      returns (outcome: PassOutcome, ghost effect: Effect)
      modifies tracking
      ensures effect == Untouched || effect == FailureRecorded(failed)
      ensures effect.Untouched? ==> tracking.Contents() == old(tracking.Contents()) && outcome == RuntimeError
      ensures effect.FailureRecorded? ==>
        && (tracking.Contents(), Tracking.Persisted)
             == Tracking.Fail(old(tracking.Contents()), m, failed.table, RenderedError(failed, faults.detail))
        && outcome == if faults.refreshes then ApplyFailedRecorded(failed) else RuntimeError
      ensures effect.FailureRecorded? <==>
        && faults.rollsBack && faults.records
        && Tracking.Fail(old(tracking.Contents()), m, failed.table, RenderedError(failed, faults.detail)).1.Persisted?
    {
      if !faults.rollsBack || !faults.records {
        return RuntimeError, Untouched;
      }
      var persisted := tracking.PersistReconcileFailure(m, failed.table, RenderedError(failed, faults.detail));
      if !persisted.Persisted? {
        FailedAlone(old(tracking.Contents()), m, failed.table, RenderedError(failed, faults.detail));
        return RuntimeError, Untouched;
      }
      effect := FailureRecorded(failed);
      outcome := if faults.refreshes then ApplyFailedRecorded(failed) else RuntimeError;
    }
  }

  /** What a tick of a mapping's loop meets: the helper tables that each statement sees and what may go wrong. */
  datatype Tick = Tick(views: seq<Database>, faults: Faults)

  /** The helper tables have the real tables' shape, whichever statement looks at them. */
  ghost predicate Fitting(views: seq<Database>, real0: Database, schema: ValidatedSchema, order: ReconcileOrder) {
    && |views| == |StatementsOf(order)|
    && forall i :: 0 <= i < |views| ==> views[i].Keys == real0.Keys && HelperTables(views[i], schema)
  }

  ghost predicate SoundOver(db: Database, real0: Database, schema: ValidatedSchema) {
    db.Keys == real0.Keys && Sound(db, schema)
  }

  lemma TickReady(db: Database, views: seq<Database>, real0: Database, schema: ValidatedSchema, order: ReconcileOrder)
    requires SoundOver(db, real0, schema) && Fitting(views, real0, schema, order)
    requires real0.Keys <= schema.Keys && Plans(order, real0, schema)
    ensures Executable(db, views, schema, StatementsOf(order))
  {
    var statements := StatementsOf(order);
    forall i | 0 <= i < |statements|
      ensures statements[i].table in db && statements[i].table in views[i]
    {
      assert statements[i].table in Listed(order.upsertOrder);
    }
  }

  /** A tick takes the real tables from one state to the next: a committed pass, or no change. */
  ghost predicate TickEnds(before: Database, tick: Tick, effect: Effect, after: Database, schema: ValidatedSchema, order: ReconcileOrder) {
    if effect.Committed? then
      && Executable(before, tick.views, schema, StatementsOf(order))
      && RunAll(before, tick.views, schema, StatementsOf(order)) == Done(after)
    else before == after
  }

  /** The states that the ticks so far went through, and what each tick left. */
  ghost predicate WentThrough(
    states: seq<Database>, effects: seq<Effect>, ticks: seq<Tick>, ran: nat, real0: Database, schema: ValidatedSchema, order: ReconcileOrder)
  {
    && |effects| == ran <= |ticks| && |states| == ran + 1 && states[0] == real0
    && (forall i :: 0 <= i <= ran ==> SoundOver(states[i], real0, schema))
    && forall i, j :: 0 <= i < ran && j == i + 1 ==> TickEnds(states[i], ticks[i], effects[i], states[j], schema, order)
  }

  lemma WentOn(
    states: seq<Database>, effects: seq<Effect>, ticks: seq<Tick>, ran: nat, real0: Database, schema: ValidatedSchema, order: ReconcileOrder,
    effect: Effect, after: Database)
    requires WentThrough(states, effects, ticks, ran, real0, schema, order) && ran < |ticks|
    requires TickEnds(states[ran], ticks[ran], effect, after, schema, order) && SoundOver(after, real0, schema)
    ensures WentThrough(states + [after], effects + [effect], ticks, ran + 1, real0, schema, order)
  {
    hide SoundOver, TickEnds;
  }

  /** The last committed pass, if there was one. */
  ghost predicate IsLast(last: Option<nat>, effects: seq<Effect>) {
    && (last.Some? ==> last.value < |effects| && effects[last.value].Committed?)
    && forall i :: 0 <= i < |effects| && (last.Some? ==> last.value < i) ==> !effects[i].Committed?
  }

  lemma LastMoves(last: Option<nat>, effects: seq<Effect>, effect: Effect)
    requires IsLast(last, effects)
    ensures IsLast(if effect.Committed? then Some(|effects|) else last, effects + [effect])
  {
  }

  /** The loop of one mapping.  Whatever fails on the way and whatever batches come in between, the real tables
      satisfy their foreign keys.  They are as the last committed pass left them: if its statements all saw the same
      helper tables, equal to those exactly if they were closed, which they were if no foreign key cascades or sets
      null. */
  method RunMappingLoop(
    destination: Destination, m: Tracking.MappingId, schema: ValidatedSchema, order: ReconcileOrder, ticks: seq<Tick>)
    returns (ghost last: Option<nat>, ghost states: seq<Database>, ghost effects: seq<Effect>, ran: nat)
    requires Sound(destination.realTables, schema) && Plans(order, destination.realTables, schema)
    requires forall i :: 0 <= i < |ticks| ==> Fitting(ticks[i].views, destination.realTables, schema, order)
    modifies destination`realTables, destination.tracking
    ensures WentThrough(states, effects, ticks, ran, old(destination.realTables), schema, order)
    ensures states[ran] == destination.realTables && IsLast(last, effects)
    ensures last.None? ==> destination.realTables == old(destination.realTables)
    ensures last.Some? ==> last.value < ran && LeftBy(ticks[last.value].views, destination.realTables, schema)
  {
    ghost var real0 := destination.realTables;
    ran, last, states, effects := 0, None, [real0], [];
    assert WentThrough(states, effects, ticks, ran, real0, schema, order) && IsLast(last, effects);
    hide Sound, SoundOver, Fitting, Plans, Executable, LeftBy, TickEnds, WentThrough, IsLast;
    assert SoundOver(real0, real0, schema);
    while ran < |ticks|
      invariant |effects| == ran <= |ticks| && |states| == ran + 1 && SoundOver(destination.realTables, real0, schema)
      invariant WentThrough(states, effects, ticks, ran, real0, schema, order)
      invariant states[ran] == destination.realTables && IsLast(last, effects)
      invariant real0.Keys <= schema.Keys && Plans(order, real0, schema)
      invariant last.None? ==> destination.realTables == real0
      invariant last.Some? ==> last.value < ran && LeftBy(ticks[last.value].views, destination.realTables, schema)
    {
      ghost var effect;
      var outcome;
      outcome, effect := RunTick(destination, m, real0, schema, order, ticks[ran]);
      WentOn(states, effects, ticks, ran, real0, schema, order, effect, destination.realTables);
      LastMoves(last, effects, effect);
      if effect.Committed? {
        last := Some(ran);
      }
      states, effects := states + [destination.realTables], effects + [effect];
      ran := ran + 1;
      if outcome.RuntimeError? {
        break;
      }
    }
  }

  method RunTick(
    destination: Destination, m: Tracking.MappingId, ghost real0: Database, schema: ValidatedSchema, order: ReconcileOrder, tick: Tick)
    returns (outcome: PassOutcome, ghost effect: Effect)
    requires SoundOver(destination.realTables, real0, schema) && Fitting(tick.views, real0, schema, order)
    requires real0.Keys <= schema.Keys && Plans(order, real0, schema)
    modifies destination`realTables, destination.tracking
    ensures TickEnds(old(destination.realTables), tick, effect, destination.realTables, schema, order)
    ensures SoundOver(destination.realTables, real0, schema)
    ensures effect.Committed? ==> LeftBy(tick.views, destination.realTables, schema)
    ensures !effect.Committed? ==> destination.realTables == old(destination.realTables)
  {
    ghost var before := destination.realTables;
    TickReady(before, tick.views, real0, schema, order);
    hide SoundOver, Fitting, Plans, Executable, EndsWith, RunAll, LeftBy, Tracking.Succeed, Tracking.Fail;
    outcome, effect := destination.RunReconcilePass(m, tick.views, schema, order, tick.faults);
    if effect.Committed? {
      TickKeeps(before, tick.views, real0, schema, order);
      TickSucceeds(before, tick.views, real0, schema, order);
    }
  }

  /** What a committed pass leaves if its statements all saw the same helper tables. */
  ghost predicate LeftBy(views: seq<Database>, db: Database, schema: ValidatedSchema) {
    views != [] && Steady(views, views[0]) ==>
      && db.Keys <= schema.Keys && views[0].Keys <= schema.Keys
      && (db == ShownAll(views[0], schema) <==> Closed(views[0], schema))
      && (Passive(schema, db) ==> Closed(views[0], schema))
  }

  lemma TickKeeps(db: Database, views: seq<Database>, real0: Database, schema: ValidatedSchema, order: ReconcileOrder)
    requires SoundOver(db, real0, schema) && Fitting(views, real0, schema, order)
    requires Executable(db, views, schema, StatementsOf(order)) && RunAll(db, views, schema, StatementsOf(order)).Done?
    ensures SoundOver(RunAll(db, views, schema, StatementsOf(order)).db, real0, schema)
  {
    hide Sound, StatementsOf, HelperTables;
    RunKeepsSound(db, views, schema, StatementsOf(order));
  }

  lemma TickSucceeds(db: Database, views: seq<Database>, real0: Database, schema: ValidatedSchema, order: ReconcileOrder)
    requires SoundOver(db, real0, schema) && Fitting(views, real0, schema, order)
    requires real0.Keys <= schema.Keys && Plans(order, real0, schema)
    requires Executable(db, views, schema, StatementsOf(order)) && RunAll(db, views, schema, StatementsOf(order)).Done?
    ensures LeftBy(views, RunAll(db, views, schema, StatementsOf(order)).db, schema)
  {
    if views != [] && Steady(views, views[0]) {
      PlansAlike(order, real0, db, schema);
      hide Plans, Pass, RunAll, ShownAll, Closed, Sound, Executable, Steady, HelperTables, StatementsOf;
      SteadyEqualizes(db, views, views[0], schema, order);
    }
  }

  lemma FailedAlone(st: Tracking.State, m: Tracking.MappingId, table: TableName, error: string)
    ensures !Tracking.Fail(st, m, table, error).1.Persisted? ==> Tracking.Fail(st, m, table, error).0 == st
  {
  }
}

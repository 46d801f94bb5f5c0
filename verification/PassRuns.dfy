/** A mapping's passes among the requests and batches that are committed meanwhile: what the statements of a pass see,
    and what the watermark stands for that the pass leaves. */
module PassRuns {
  import opened HelperPlan
  import opened Options
  import opened Texts
  import opened Watermarks
  import opened Tables
  import opened Reconcile
  import opened Views
  import Tracking
  import Ingest

  /** A mapping, and what its tables hold when the runner starts. */
  datatype Setup = Setup(
    mapping: Tracking.MappingId, schema: ValidatedSchema, order: ReconcileOrder,
    realTables: Database, helpers: map<TableName, Ingest.Contents>)

  /** An open transaction: the real tables as it sees them and how many statements it has executed. */
  datatype Progress = Progress(work: Database, executed: nat)

  datatype World = World(
    realTables: Database, helpers: map<TableName, Ingest.Contents>, tracking: Tracking.State, pass: Option<Progress>)

  /** What is committed, or done by the mapping's pass.  From the tracking update to the commit of a pass the row of
      its stream is locked, and the transaction looks at nothing else: the two are one event. */
  datatype Event =
    | Tracked(step: Tracking.Step)
    | BatchCommits(table: TableName, rows: seq<Ingest.Change>)
    | PassBegins
    | StatementRuns
    | PassCommits
    | PassRollsBack

  function View(helpers: map<TableName, Ingest.Contents>): Database {
    map t | t in helpers :: helpers[t].keyed
  }

  predicate Applies(w: World, s: Setup, t: TableName, rows: seq<Ingest.Change>) {
    && t in w.helpers && t in s.schema && Ingest.HelperShape(s.schema[t])
    && Ingest.ApplyChanges(s.schema[t], w.helpers[t], rows).Ok?
  }

  /** A statement is left to execute. */
  predicate CanExecute(w: World, s: Setup) {
    && w.pass.Some? && w.pass.value.executed < |StatementsOf(s.order)|
    && Runnable(w.pass.value.work, View(w.helpers), s.schema, [StatementsOf(s.order)[w.pass.value.executed].table])
  }

  function Executed(w: World, s: Setup): Applied
    requires CanExecute(w, s)
  {
    var next := StatementsOf(s.order)[w.pass.value.executed];
    ApplyStatement(w.pass.value.work, View(w.helpers), s.schema, next.phase, next.table)
  }

  predicate Complete(w: World, s: Setup) {
    w.pass.Some? && w.pass.value.executed == |StatementsOf(s.order)|
  }

  function Success(s: Setup): Tracking.Step {
    Tracking.Success(s.mapping, s.order.upsertOrder)
  }

  function Next(w: World, e: Event, s: Setup): World {
    match e
    case Tracked(step) =>
      if step.Success? && step.mapping == s.mapping then w else w.(tracking := Tracking.After(w.tracking, step))
    case BatchCommits(t, rows) =>
      if Applies(w, s, t, rows)
      then w.(helpers := w.helpers[t := Ingest.ApplyChanges(s.schema[t], w.helpers[t], rows).contents]) else w
    case PassBegins => if w.pass.None? then w.(pass := Some(Progress(w.realTables, 0))) else w
    case StatementRuns =>
      if !CanExecute(w, s) then w
      else w.(pass := if Executed(w, s).Done? then Some(Progress(Executed(w, s).db, w.pass.value.executed + 1)) else None)
    case PassCommits =>
      if !Complete(w, s) then w
      else if Tracking.Succeed(w.tracking, s.mapping, s.order.upsertOrder).1.Persisted?
      then World(w.pass.value.work, w.helpers, Tracking.Succeed(w.tracking, s.mapping, s.order.upsertOrder).0, None)
      else w.(pass := None)
    case PassRollsBack => w.(pass := None)
  }

  function Run(s: Setup, events: seq<Event>): World {
    if events == [] then World(s.realTables, s.helpers, Tracking.State(map[], map[]), None)
    else Next(Run(s, events[..|events| - 1]), events[|events| - 1], s)
  }

  /** The real tables are sound, and the order is planned for them; the helper tables have their shape. */
  ghost predicate ValidSetup(s: Setup) {
    && s.helpers.Keys == s.realTables.Keys && Sound(s.realTables, s.schema)
    && Plans(s.order, s.realTables, s.schema)
    && forall t :: t in s.helpers ==> Ingest.HelperShape(s.schema[t]) && HelperRows(s.helpers[t].keyed, s.schema[t])
  }

  // ---- The tracking tables see a run of their own steps ----

  function StepsOf(w: World, e: Event, s: Setup): seq<Tracking.Step> {
    match e
    case Tracked(step) => if step.Success? && step.mapping == s.mapping then [] else [step]
    case PassCommits => if Complete(w, s) then [Success(s)] else []
    case _ => []
  }

  function Steps(s: Setup, events: seq<Event>): seq<Tracking.Step> {
    if events == [] then []
    else Steps(s, events[..|events| - 1]) + StepsOf(Run(s, events[..|events| - 1]), events[|events| - 1], s)
  }

  lemma SnocRun(steps: seq<Tracking.Step>, step: Tracking.Step)
    ensures Tracking.Run(steps + [step]) == Tracking.After(Tracking.Run(steps), step)
  {
    assert (steps + [step])[..|steps|] == steps;
  }

  lemma SuccessAlone(st: Tracking.State, s: Setup)
    ensures Tracking.After(st, Success(s)) == Tracking.Succeed(st, s.mapping, s.order.upsertOrder).0
    ensures !Tracking.Succeed(st, s.mapping, s.order.upsertOrder).1.Persisted? ==> Tracking.After(st, Success(s)) == st
  {
  }

  /** An event is at most one step of the tracking tables. */
  lemma NextTracks(w: World, e: Event, s: Setup)
    ensures var steps := StepsOf(w, e, s);
      && (steps == [] || steps == [steps[0]])
      && Next(w, e, s).tracking == if steps == [] then w.tracking else Tracking.After(w.tracking, steps[0])
  {
    SuccessAlone(w.tracking, s);
    hide Tracking.After, Tracking.Succeed, Success, CanExecute, Complete, Applies, Executed;
  }

  lemma {:induction false} TrackingFollows(s: Setup, events: seq<Event>)
    ensures Run(s, events).tracking == Tracking.Run(Steps(s, events))
  {
    if events != [] {
      var n := |events| - 1;
      var before, e := Run(s, events[..n]), events[n];
      TrackingFollows(s, events[..n]);
      NextTracks(before, e, s);
      hide Tracking.Run, Tracking.After, Next, StepsOf;
      var more := StepsOf(before, e, s);
      if more == [] {
        assert Steps(s, events[..n]) + [] == Steps(s, events[..n]);
      } else {
        SnocRun(Steps(s, events[..n]), more[0]);
      }
    }
  }

  /** Event a is an accepted request of the mapping. */
  ghost predicate AcceptedAt(s: Setup, events: seq<Event>, a: nat, w: Watermark) {
    && a < |events| && events[a] == Tracked(Tracking.Request(s.mapping, w))
    && s.mapping in Run(s, events[..a]).tracking.streams
  }

  lemma AcceptedAtPrefix(s: Setup, events: seq<Event>, n: nat, a: nat, w: Watermark)
    requires n <= |events|
    ensures AcceptedAt(s, events[..n], a, w) <==> a < n && AcceptedAt(s, events, a, w)
  {
    if a < n {
      assert events[..n][..a] == events[..a];
    }
  }

  lemma SnocAccepted(steps: seq<Tracking.Step>, step: Tracking.Step, m: Tracking.MappingId)
    ensures Tracking.Accepted(steps + [step], m)
      == Tracking.Accepted(steps, m)
         + if step.Request? && step.mapping == m && m in Tracking.Run(steps).streams then [step.watermark] else []
  {
    assert (steps + [step])[..|steps|] == steps;
    Tracking.StreamsKnown(steps, m);
  }

  /** The last event adds the watermark that it is accepted with. */
  lemma AcceptedLast(s: Setup, events: seq<Event>, w: Watermark)
    requires events != []
    ensures w in Tracking.Accepted(Steps(s, events), s.mapping)
      <==> w in Tracking.Accepted(Steps(s, events[..|events| - 1]), s.mapping) || AcceptedAt(s, events, |events| - 1, w)
  {
    var n := |events| - 1;
    var before, e := Run(s, events[..n]), events[n];
    TrackingFollows(s, events[..n]);
    NextTracks(before, e, s);
    hide Tracking.Run, Tracking.Accepted, Next, Run, Complete;
    var earlier, more := Steps(s, events[..n]), StepsOf(before, e, s);
    if more == [] {
      assert earlier + [] == earlier;
    } else {
      SnocAccepted(earlier, more[0], s.mapping);
    }
  }

  lemma {:induction false} AcceptedIsAt(s: Setup, events: seq<Event>, w: Watermark)
    ensures w in Tracking.Accepted(Steps(s, events), s.mapping) <==> exists a :: AcceptedAt(s, events, a, w)
  {
    if events != [] {
      var n := |events| - 1;
      AcceptedIsAt(s, events[..n], w);
      AcceptedLast(s, events, w);
      forall a: nat
        ensures AcceptedAt(s, events[..n], a, w) <==> a < n && AcceptedAt(s, events, a, w)
      {
        AcceptedAtPrefix(s, events, n, a, w);
      }
      hide Tracking.Accepted, Steps, AcceptedAt;
      assert forall a: nat :: AcceptedAt(s, events, a, w) ==> a < n || a == n by {
        Within(s, events, w);
      }
    }
  }

  lemma Within(s: Setup, events: seq<Event>, w: Watermark)
    ensures forall a: nat :: AcceptedAt(s, events, a, w) ==> a < |events|
  {
  }

  // ---- The watermark that a pass leaves ----

  /** Event u commits a pass that advances the tracking state. */
  ghost predicate EffectiveAt(s: Setup, events: seq<Event>, u: nat) {
    && u < |events| && events[u].PassCommits? && Complete(Run(s, events[..u]), s)
    && Tracking.Effective(Run(s, events[..u]).tracking, Success(s))
  }

  /** The reconciled watermark of the mapping. */
  function Reconciled(s: Setup, events: seq<Event>): Option<Watermark> {
    var streams := Run(s, events).tracking.streams;
    if s.mapping in streams then streams[s.mapping].reconciled else None
  }

  ghost predicate AcceptedBefore(s: Setup, events: seq<Event>, n: nat, w: Watermark) {
    exists a: nat :: a < n && AcceptedAt(s, events, a, w)
  }

  /** The greatest watermark accepted before event n. */
  ghost predicate IsGreatest(s: Setup, events: seq<Event>, n: nat, w: Watermark) {
    AcceptedBefore(s, events, n, w) && forall v :: AcceptedBefore(s, events, n, v) ==> !TextLess(w, v)
  }

  lemma BeforeIsPrefix(s: Setup, events: seq<Event>, n: nat, w: Watermark)
    requires n <= |events|
    ensures AcceptedBefore(s, events, n, w) <==> w in Tracking.Accepted(Steps(s, events[..n]), s.mapping)
  {
    AcceptedIsAt(s, events[..n], w);
    forall a: nat
      ensures AcceptedAt(s, events[..n], a, w) <==> a < n && AcceptedAt(s, events, a, w)
    {
      AcceptedAtPrefix(s, events, n, a, w);
    }
    hide AcceptedAt, Steps, Tracking.Accepted;
  }

  /** The tracking update reads what was received until then. */
  lemma CommitReadsReceived(s: Setup, events: seq<Event>, u: nat)
    requires EffectiveAt(s, events, u)
    ensures var received := Run(s, events[..u]).tracking.streams[s.mapping].received;
      received.Some? && Reconciled(s, events[..u + 1]) == received && IsGreatest(s, events, u, received.value)
  {
    var before := Run(s, events[..u]);
    TrackingFollows(s, events[..u]);
    Tracking.EffectiveSyncs(Steps(s, events[..u]), Success(s));
    Tracking.ReceivedIsLatest(Steps(s, events[..u]), s.mapping);
    assert events[..u + 1][..u] == events[..u];
    Tracking.StepStream(before.tracking, Success(s), s.mapping);
    NextTracks(before, PassCommits, s);
    hide Tracking.Run, Tracking.Effective, Tracking.After, Next, AcceptedBefore, Complete;
    forall w
      ensures AcceptedBefore(s, events, u, w) <==> w in Tracking.Accepted(Steps(s, events[..u]), s.mapping)
    {
      BeforeIsPrefix(s, events, u, w);
    }
  }

  /** Event u commits the last such pass. */
  ghost predicate LastAt(s: Setup, events: seq<Event>, u: nat) {
    EffectiveAt(s, events, u) && forall k: nat :: u < k ==> !EffectiveAt(s, events, k)
  }

  lemma EffectiveAtPrefix(s: Setup, events: seq<Event>, n: nat, u: nat)
    requires n <= |events|
    ensures EffectiveAt(s, events[..n], u) <==> u < n && EffectiveAt(s, events, u)
  {
    if u < n {
      assert events[..n][..u] == events[..u];
    }
  }

  /** Events that commit no effective pass leave the reconciled watermark. */
  lemma OthersLeaveReconciled(s: Setup, events: seq<Event>)
    requires events != [] && !EffectiveAt(s, events, |events| - 1)
    ensures Reconciled(s, events) == Reconciled(s, events[..|events| - 1])
  {
    var n := |events| - 1;
    var before := Run(s, events[..n]);
    NextTracks(before, events[n], s);
    var steps := StepsOf(before, events[n], s);
    if steps != [] {
      var step := steps[0];
      assert step.mapping == s.mapping ==> !Tracking.Effective(before.tracking, step);
      hide Complete, Next, StepsOf, EffectiveAt;
      if s.mapping in before.tracking.streams {
        Tracking.StepStream(before.tracking, step, s.mapping);
      } else {
        Tracking.SeededStreams(before.tracking, step, s.mapping);
      }
    }
  }

  lemma LastAtEnd(s: Setup, events: seq<Event>)
    requires events != []
    ensures EffectiveAt(s, events, |events| - 1) ==> LastAt(s, events, |events| - 1)
    ensures !EffectiveAt(s, events, |events| - 1) ==>
      forall u: nat :: LastAt(s, events[..|events| - 1], u) ==> LastAt(s, events, u)
  {
    var n := |events| - 1;
    forall k: nat
      ensures EffectiveAt(s, events[..n], k) <==> k < n && EffectiveAt(s, events, k)
      ensures EffectiveAt(s, events, k) ==> k <= n
    {
      EffectiveAtPrefix(s, events, n, k);
    }
    hide EffectiveAt;
  }

  lemma GreatestPrefix(s: Setup, events: seq<Event>, n: nat, u: nat, w: Watermark)
    requires u <= n <= |events|
    ensures IsGreatest(s, events[..n], u, w) <==> IsGreatest(s, events, u, w)
  {
    forall v
      ensures AcceptedBefore(s, events[..n], u, v) <==> AcceptedBefore(s, events, u, v)
    {
      forall a: nat
        ensures a < u ==> (AcceptedAt(s, events[..n], a, v) <==> AcceptedAt(s, events, a, v))
      {
        AcceptedAtPrefix(s, events, n, a, v);
      }
      hide AcceptedAt;
    }
    hide AcceptedBefore;
  }

  /** The mapping's reconciled watermark is what the pass committed by event u, the last one, has left: the greatest
      watermark accepted before that event. */
  ghost predicate LeftAt(s: Setup, events: seq<Event>, u: nat) {
    && LastAt(s, events, u) && Reconciled(s, events).Some?
    && Reconciled(s, events) == Reconciled(s, events[..u + 1])
    && IsGreatest(s, events, u, Reconciled(s, events).value)
  }

  /** In every run, whatever is reconciled was left by the last effective pass. */
  lemma {:induction false} ReconciledAtLastCommit(s: Setup, events: seq<Event>)
    requires Reconciled(s, events).Some?
    ensures exists u: nat :: LeftAt(s, events, u)
  {
    var n := |events| - 1;
    LastAtEnd(s, events);
    if EffectiveAt(s, events, n) {
      CommitReadsReceived(s, events, n);
      assert events[..n + 1] == events;
      hide EffectiveAt, IsGreatest, Reconciled, LastAt;
      assert LeftAt(s, events, n);
    } else {
      OthersLeaveReconciled(s, events);
      ReconciledAtLastCommit(s, events[..n]);
      var u: nat :| LeftAt(s, events[..n], u);
      assert u < n;
      hide EffectiveAt, Reconciled, IsGreatest, LastAt;
      assert events[..n][..u + 1] == events[..u + 1];
      GreatestPrefix(s, events, n, u, Reconciled(s, events).value);
      assert LeftAt(s, events, u);
    }
  }

  // ---- When the statements run ----

  /** The events by which the open pass has executed its statements. */
  ghost function Times(s: Setup, events: seq<Event>): (times: seq<nat>)
    ensures forall i :: 0 <= i < |times| ==> times[i] < |events|
    ensures forall i, j :: 0 <= i < j < |times| ==> times[i] < times[j]
  {
    if events == [] then []
    else
      var n := |events| - 1;
      var before, after := Run(s, events[..n]), Run(s, events);
      if after.pass.None? then []
      else if events[n].StatementRuns? && CanExecute(before, s) then Times(s, events[..n]) + [n]
      else Times(s, events[..n])
  }

  /** The helper tables at these events. */
  ghost function ViewsAt(s: Setup, events: seq<Event>, times: seq<nat>): seq<Database>
    requires forall i :: 0 <= i < |times| ==> times[i] <= |events|
  {
    seq(|times|, i requires 0 <= i < |times| => View(Run(s, events[..times[i]]).helpers))
  }

  /** The tables stay what they are, and helper rows complete. */
  ghost predicate Shaped(w: World, s: Setup) {
    && w.helpers.Keys == s.helpers.Keys == w.realTables.Keys && s.helpers.Keys <= s.schema.Keys
    && (w.pass.Some? ==> w.pass.value.work.Keys == s.helpers.Keys)
    && forall t :: t in w.helpers ==> HelperRows(w.helpers[t].keyed, s.schema[t])
  }

  lemma NextShaped(w: World, e: Event, s: Setup)
    requires Shaped(w, s) && forall t :: t in s.helpers ==> Ingest.HelperShape(s.schema[t])
    ensures Shaped(Next(w, e, s), s)
  {
    match e {
      case BatchCommits(t, rows) =>
        hide CanExecute, Complete;
        if Applies(w, s, t, rows) {
          Ingest.RowsStayFiled(s.schema[t], w.helpers[t], rows);
          hide HelperRows, Ingest.ApplyChanges, Applies;
        }
      case _ =>
        hide Tracking.Succeed, Tracking.After, ApplyStatement, HelperRows, Applies, StatementsOf, View;
    }
  }

  lemma {:induction false} RunShaped(s: Setup, events: seq<Event>)
    requires ValidSetup(s)
    ensures Shaped(Run(s, events), s) && HelperTables(View(Run(s, events).helpers), s.schema)
  {
    assert s.helpers.Keys <= s.schema.Keys;
    if events != [] {
      RunShaped(s, events[..|events| - 1]);
      hide ValidSetup, Next;
      NextShaped(Run(s, events[..|events| - 1]), events[|events| - 1], s);
    }
  }

  /** The transaction has done to the real tables what its statements do with what each of them saw. */
  ghost predicate Did(w: World, s: Setup, views: seq<Database>) {
    w.pass.Some? ==>
      && |views| == w.pass.value.executed <= |StatementsOf(s.order)|
      && Executable(w.realTables, views, s.schema, StatementsOf(s.order)[..|views|])
      && RunAll(w.realTables, views, s.schema, StatementsOf(s.order)[..|views|]) == Done(w.pass.value.work)
  }

  lemma ViewsAtPrefix(s: Setup, events: seq<Event>, n: nat, times: seq<nat>)
    requires n <= |events| && forall i :: 0 <= i < |times| ==> times[i] <= n
    ensures ViewsAt(s, events[..n], times) == ViewsAt(s, events, times)
  {
    forall i | 0 <= i < |times|
      ensures events[..n][..times[i]] == events[..times[i]]
    {
    }
  }

  lemma ViewsAtSnoc(s: Setup, events: seq<Event>, times: seq<nat>, n: nat)
    requires n <= |events| && forall i :: 0 <= i < |times| ==> times[i] <= |events|
    ensures ViewsAt(s, events, times + [n]) == ViewsAt(s, events, times) + [View(Run(s, events[..n]).helpers)]
  {
    hide Run, View;
  }

  lemma TimesOfNone(s: Setup, events: seq<Event>)
    ensures Run(s, events).pass.None? ==> Times(s, events) == []
  {
  }

  lemma StatementAdds(db: Database, views: seq<Database>, view: Database, schema: ValidatedSchema, statements: seq<Statement>, next: Statement)
    requires Executable(db, views, schema, statements) && RunAll(db, views, schema, statements).Done?
    requires Runnable(RunAll(db, views, schema, statements).db, view, schema, [next.table])
    ensures Executable(db, views + [view], schema, statements + [next])
    ensures RunAll(db, views + [view], schema, statements + [next])
      == ApplyStatement(RunAll(db, views, schema, statements).db, view, schema, next.phase, next.table)
  {
    assert next.table in [next.table];
    assert (views + [view])[..|views|] == views;
    hide ApplyStatement, RunAll;
    RunAllLast(db, views + [view], schema, statements, next);
  }

  lemma StatementEffect(w: World, s: Setup)
    requires CanExecute(w, s)
    ensures Next(w, StatementRuns, s)
      == w.(pass := if Executed(w, s).Done? then Some(Progress(Executed(w, s).db, w.pass.value.executed + 1)) else None)
  {
    hide Executed, CanExecute;
  }

  /** A statement goes on with what it sees. */
  lemma StatementDoes(w: World, s: Setup, views: seq<Database>)
    requires CanExecute(w, s) && Did(w, s, views)
    ensures Did(Next(w, StatementRuns, s), s, views + [View(w.helpers)])
  {
    StatementEffect(w, s);
    hide ApplyStatement, StatementsOf, View, Executable, RunAll, Runnable, Next;
    if Executed(w, s).Done? {
      var statements, n := StatementsOf(s.order), |views|;
      assert statements[..n + 1] == statements[..n] + [statements[n]];
      StatementAdds(w.realTables, views, View(w.helpers), s.schema, statements[..n], statements[n]);
    }
  }

  /** Other events leave an open pass as it is, or end it, or begin one. */
  lemma OthersLeavePass(w: World, e: Event, s: Setup)
    requires !(e.StatementRuns? && CanExecute(w, s))
    ensures var after := Next(w, e, s);
      && (w.pass.Some? && after.pass.Some? ==> after.pass == w.pass && after.realTables == w.realTables)
      && (w.pass.None? && after.pass.Some? ==> after.pass == Some(Progress(after.realTables, 0)))
  {
    hide StatementsOf, Tracking.Succeed, Tracking.After, Applies, Ingest.ApplyChanges;
  }

  lemma OthersDo(w: World, e: Event, s: Setup, views: seq<Database>)
    requires !(e.StatementRuns? && CanExecute(w, s)) && Did(w, s, views)
    requires (w.pass.None? ==> views == []) && Shaped(Next(w, e, s), s)
    ensures Did(Next(w, e, s), s, views)
  {
    OthersLeavePass(w, e, s);
    assert StatementsOf(s.order)[..0] == [];
    hide StatementsOf, Next, CanExecute;
  }

  lemma TimesSnoc(s: Setup, events: seq<Event>)
    requires events != [] && Run(s, events).pass.Some?
    ensures var n := |events| - 1;
      Times(s, events)
        == Times(s, events[..n]) + if events[n].StatementRuns? && CanExecute(Run(s, events[..n]), s) then [n] else []
  {
    hide Run, CanExecute;
  }

  lemma RunSnoc(s: Setup, events: seq<Event>)
    requires events != []
    ensures Run(s, events) == Next(Run(s, events[..|events| - 1]), events[|events| - 1], s)
  {
  }

  lemma StatementMatches(s: Setup, events: seq<Event>)
    requires events != [] && Run(s, events).pass.Some?
    requires events[|events| - 1].StatementRuns? && CanExecute(Run(s, events[..|events| - 1]), s)
    requires Did(Run(s, events[..|events| - 1]), s, ViewsAt(s, events[..|events| - 1], Times(s, events[..|events| - 1])))
    ensures Did(Run(s, events), s, ViewsAt(s, events, Times(s, events)))
  {
    var n := |events| - 1;
    var before, earlier := Run(s, events[..n]), Times(s, events[..n]);
    RunSnoc(s, events);
    TimesSnoc(s, events);
    ViewsAtPrefix(s, events, n, earlier);
    ViewsAtSnoc(s, events, earlier, n);
    hide Did, Times, CanExecute, Run, Next, View, ViewsAt;
    StatementDoes(before, s, ViewsAt(s, events, earlier));
  }

  lemma OthersMatch(s: Setup, events: seq<Event>)
    requires events != [] && Run(s, events).pass.Some? && Shaped(Run(s, events), s)
    requires !(events[|events| - 1].StatementRuns? && CanExecute(Run(s, events[..|events| - 1]), s))
    requires Did(Run(s, events[..|events| - 1]), s, ViewsAt(s, events[..|events| - 1], Times(s, events[..|events| - 1])))
    ensures Did(Run(s, events), s, ViewsAt(s, events, Times(s, events)))
  {
    var n := |events| - 1;
    var earlier := Times(s, events[..n]);
    RunSnoc(s, events);
    TimesSnoc(s, events);
    TimesOfNone(s, events[..n]);
    ViewsAtPrefix(s, events, n, earlier);
    hide Did, Times, CanExecute, Run, Next, Shaped;
    OthersDo(Run(s, events[..n]), events[n], s, ViewsAt(s, events, earlier));
  }

  lemma {:induction false} RunMatches(s: Setup, events: seq<Event>)
    requires ValidSetup(s)
    ensures Did(Run(s, events), s, ViewsAt(s, events, Times(s, events)))
  {
    if Run(s, events).pass.None? {
      NoneDid(Run(s, events), s, ViewsAt(s, events, Times(s, events)));
    } else {
      var n := |events| - 1;
      RunMatches(s, events[..n]);
      RunShaped(s, events);
      hide Did, Times, CanExecute, Run, Shaped, ValidSetup, ViewsAt;
      if events[n].StatementRuns? && CanExecute(Run(s, events[..n]), s) {
        StatementMatches(s, events);
      } else {
        OthersMatch(s, events);
      }
    }
  }

  lemma NoneDid(w: World, s: Setup, views: seq<Database>)
    requires w.pass.None?
    ensures Did(w, s, views)
  {
  }

  /** Event u commits a pass. */
  ghost predicate CommitsAt(s: Setup, events: seq<Event>, u: nat) {
    && u < |events| && events[u].PassCommits? && Complete(Run(s, events[..u]), s)
    && Tracking.Succeed(Run(s, events[..u]).tracking, s.mapping, s.order.upsertOrder).1.Persisted?
  }

  /** What the statements of the pass open before event u have seen. */
  ghost function SeenAt(s: Setup, events: seq<Event>, u: nat): seq<Database>
    requires u <= |events|
  {
    ViewsAt(s, events[..u], Times(s, events[..u]))
  }

  lemma DidAll(w: World, s: Setup, views: seq<Database>)
    requires Complete(w, s) && Did(w, s, views)
    ensures Executable(w.realTables, views, s.schema, StatementsOf(s.order))
    ensures RunAll(w.realTables, views, s.schema, StatementsOf(s.order)) == Done(w.pass.value.work)
  {
    var statements := StatementsOf(s.order);
    assert statements[..|statements|] == statements;
    hide StatementsOf, Executable, RunAll;
  }

  lemma CommitEffect(w: World, s: Setup)
    requires Complete(w, s) && Tracking.Succeed(w.tracking, s.mapping, s.order.upsertOrder).1.Persisted?
    ensures Next(w, PassCommits, s).realTables == w.pass.value.work
  {
    hide Tracking.Succeed, StatementsOf;
  }

  lemma RunPrefix(s: Setup, events: seq<Event>, n: nat)
    requires n < |events|
    ensures Run(s, events[..n + 1]) == Next(Run(s, events[..n]), events[n], s)
  {
    assert events[..n + 1][..n] == events[..n];
    hide Next;
  }

  /** A committed pass has executed all statements, each on the helper tables of its moment. */
  lemma CommittedPass(s: Setup, events: seq<Event>, u: nat)
    requires ValidSetup(s) && CommitsAt(s, events, u)
    ensures var db, views := Run(s, events[..u]).realTables, SeenAt(s, events, u);
      && Executable(db, views, s.schema, StatementsOf(s.order))
      && RunAll(db, views, s.schema, StatementsOf(s.order)) == Done(Run(s, events[..u + 1]).realTables)
  {
    RunMatches(s, events[..u]);
    RunPrefix(s, events, u);
    hide Run, ViewsAt, Times, ValidSetup, Next, Did, Complete, Tracking.Succeed, StatementsOf;
    CommitEffect(Run(s, events[..u]), s);
    DidAll(Run(s, events[..u]), s, SeenAt(s, events, u));
  }

  lemma SeenFits(s: Setup, events: seq<Event>, u: nat)
    requires ValidSetup(s) && u <= |events|
    ensures var views := SeenAt(s, events, u);
      forall i :: 0 <= i < |views| ==> views[i].Keys == s.realTables.Keys && HelperTables(views[i], s.schema)
  {
    var times := Times(s, events[..u]);
    forall i | 0 <= i < |times|
      ensures View(Run(s, events[..u][..times[i]]).helpers).Keys == s.realTables.Keys
      ensures HelperTables(View(Run(s, events[..u][..times[i]]).helpers), s.schema)
    {
      RunShaped(s, events[..u][..times[i]]);
    }
    hide HelperTables, View, Run, ValidSetup, Times;
  }

  /** Only a commit changes the real tables. */
  lemma RealStays(s: Setup, events: seq<Event>)
    requires events != [] && !CommitsAt(s, events, |events| - 1)
    ensures Run(s, events).realTables == Run(s, events[..|events| - 1]).realTables
  {
    hide StatementsOf, Tracking.Succeed, Tracking.After, Applies, CanExecute, Complete;
  }

  /** The foreign keys hold in every run, whatever is committed between the statements of a pass. */
  lemma {:induction false} RunSound(s: Setup, events: seq<Event>)
    requires ValidSetup(s)
    ensures Run(s, events).realTables.Keys == s.realTables.Keys && Sound(Run(s, events).realTables, s.schema)
  {
    RunShaped(s, events);
    if events != [] {
      var n := |events| - 1;
      RunSound(s, events[..n]);
      if CommitsAt(s, events, n) {
        CommittedPass(s, events, n);
        SeenFits(s, events, n);
        assert events[..n + 1] == events;
        hide Sound, CommitsAt, SeenAt, StatementsOf, Run, HelperTables;
        RunKeepsSound(Run(s, events[..n]).realTables, SeenAt(s, events, n), s.schema, StatementsOf(s.order));
      } else {
        RealStays(s, events);
      }
    }
  }

  // ---- The batches that a pass has worked on ----

  /** The changes committed to a helper table, in order. */
  ghost function Log(s: Setup, events: seq<Event>, t: TableName): seq<Ingest.Change> {
    if events == [] then []
    else
      var n := |events| - 1;
      Log(s, events[..n], t)
      + if events[n].BatchCommits? && events[n].table == t && Applies(Run(s, events[..n]), s, t, events[n].rows) then events[n].rows else []
  }

  lemma NextHelper(w: World, e: Event, s: Setup, t: TableName)
    requires t in w.helpers && t in s.schema && Ingest.HelperShape(s.schema[t])
    ensures var rows := if e.BatchCommits? && e.table == t && Applies(w, s, t, e.rows) then e.rows else [];
      t in Next(w, e, s).helpers && Ingest.ApplyChanges(s.schema[t], w.helpers[t], rows) == Ingest.Ok(Next(w, e, s).helpers[t])
  {
    hide StatementsOf, Tracking.Succeed, Tracking.After, CanExecute, Complete;
  }

  /** A helper table is what the changes committed to it have made. */
  lemma {:induction false} HelpersAreLog(s: Setup, events: seq<Event>, t: TableName)
    requires t in s.helpers && t in s.schema && Ingest.HelperShape(s.schema[t])
    ensures t in Run(s, events).helpers
    ensures Ingest.ApplyChanges(s.schema[t], s.helpers[t], Log(s, events, t)) == Ingest.Ok(Run(s, events).helpers[t])
  {
    if events != [] {
      var n := |events| - 1;
      var before, e := Run(s, events[..n]), events[n];
      HelpersAreLog(s, events[..n], t);
      NextHelper(before, e, s, t);
      hide Next, Applies, Ingest.ApplyChanges;
      var rows := if e.BatchCommits? && e.table == t && Applies(before, s, t, e.rows) then e.rows else [];
      Ingest.ApplyConcat(s.schema[t], s.helpers[t], Log(s, events[..n], t), rows);
    }
  }

  lemma {:induction false} LogGrows(s: Setup, events: seq<Event>, t: TableName, a: nat, b: nat)
    requires a <= b <= |events|
    ensures Log(s, events[..a], t) <= Log(s, events[..b], t)
  {
    if a < b {
      LogGrows(s, events, t, a, b - 1);
      assert events[..b][..b - 1] == events[..b - 1];
      hide Applies;
    }
  }
}

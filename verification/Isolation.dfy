/** Two mappings of one destination: their passes and batches commute. */
module Isolation {
  import opened HelperPlan
  import opened Tables
  import opened Reconcile
  import opened Ingest
  import opened StartupPlans

  /** What a mapping works with: its id, its tables and how they are reconciled. */
  datatype MappingRuntime = MappingRuntime(id: string, tables: set<TableName>, schema: ValidatedSchema, order: ReconcileOrder)

  /** A helper table belongs to a mapping and a source table. */
  datatype HelperId = HelperId(mapping: string, table: TableName)

  datatype Destination = Destination(realTables: Database, helpers: map<HelperId, Contents>)

  /** One atomic step of a mapping: a reconcile pass, or a batch for one of its tables. */
  datatype MappingStep = PassStep | BatchStep(table: TableName, rows: seq<Change>)

  ghost predicate Serves(d: Destination, m: MappingRuntime) {
    && m.tables <= d.realTables.Keys && m.tables <= m.schema.Keys
    && (forall t :: t in m.tables ==> HelperId(m.id, t) in d.helpers && HelperShape(m.schema[t]))
    && (forall t :: t in m.order.upsertOrder || t in m.order.deleteOrder ==> t in m.tables)
  }

  function OwnTables(d: Destination, m: MappingRuntime): Database {
    map t | t in d.realTables && t in m.tables :: d.realTables[t]
  }

  ghost function OwnHelpers(d: Destination, m: MappingRuntime): Database
    requires Serves(d, m)
  {
    map t | t in m.tables :: d.helpers[HelperId(m.id, t)].keyed
  }

  ghost function Step(d: Destination, m: MappingRuntime, s: MappingStep): Destination
    requires Serves(d, m)
  {
    match s
    case PassStep =>
      var r := Pass(OwnTables(d, m), OwnHelpers(d, m), m.schema, m.order);
      if r.Done? then d.(realTables := d.realTables + r.db) else d
    case BatchStep(t, rows) =>
      if t !in m.tables then d
      else
        var r := ApplyChanges(m.schema[t], d.helpers[HelperId(m.id, t)], rows);
        if r.Ok? then d.(helpers := d.helpers[HelperId(m.id, t) := r.contents]) else d
  }

  /** A step changes only what is the mapping's own .. */
  lemma StepLocal(d: Destination, m: MappingRuntime, s: MappingStep)
    requires Serves(d, m)
    ensures var after := Step(d, m, s);
      && after.realTables.Keys == d.realTables.Keys && after.helpers.Keys == d.helpers.Keys
      && (forall t :: t in d.realTables && t !in m.tables ==> after.realTables[t] == d.realTables[t])
      && (forall h :: h in d.helpers && h.mapping != m.id ==> after.helpers[h] == d.helpers[h])
  {
    match s {
      case PassStep =>
        var own := OwnTables(d, m);
        var r := Pass(own, OwnHelpers(d, m), m.schema, m.order);
        assert own.Keys <= m.tables && own.Keys <= d.realTables.Keys && (r.Done? ==> r.db.Keys == own.Keys);
        hide Pass, OwnHelpers, OwnTables, Serves;
        assert r.Done? ==> (d.realTables + r.db).Keys == d.realTables.Keys;
      case BatchStep(t, rows) =>
        hide Pass, ApplyChanges, OwnHelpers, OwnTables;
    }
  }

  lemma SameInputs(d: Destination, e: Destination, m: MappingRuntime)
    requires Serves(d, m) && Serves(e, m)
    requires forall t :: t in m.tables ==> SameFor(d, e, m, t)
    ensures OwnTables(d, m) == OwnTables(e, m) && OwnHelpers(d, m) == OwnHelpers(e, m)
  {
  }

  ghost predicate SameFor(d: Destination, e: Destination, m: MappingRuntime, t: TableName) {
    && t in d.realTables && t in e.realTables && d.realTables[t] == e.realTables[t]
    && HelperId(m.id, t) in d.helpers && HelperId(m.id, t) in e.helpers && d.helpers[HelperId(m.id, t)] == e.helpers[HelperId(m.id, t)]
  }

  lemma PassDepends(d: Destination, e: Destination, m: MappingRuntime, t: TableName)
    requires Serves(d, m) && Serves(e, m) && t in m.tables && forall u :: u in m.tables ==> SameFor(d, e, m, u)
    ensures SameFor(Step(d, m, PassStep), Step(e, m, PassStep), m, t)
  {
    SameInputs(d, e, m);
    hide Pass, OwnTables, OwnHelpers, Serves;
  }

  lemma BatchDepends(d: Destination, e: Destination, m: MappingRuntime, s: MappingStep, t: TableName)
    requires Serves(d, m) && Serves(e, m) && s.BatchStep? && t in m.tables && forall u :: u in m.tables ==> SameFor(d, e, m, u)
    ensures SameFor(Step(d, m, s), Step(e, m, s), m, t)
  {
    hide ApplyChanges, Serves;
  }

  /** .. and depends on nothing else. */
  lemma StepDepends(d: Destination, e: Destination, m: MappingRuntime, s: MappingStep)
    requires Serves(d, m) && Serves(e, m) && forall t :: t in m.tables ==> SameFor(d, e, m, t)
    ensures forall t :: t in m.tables ==> SameFor(Step(d, m, s), Step(e, m, s), m, t)
  {
    hide Step, Serves, SameFor;
    forall t | t in m.tables
      ensures SameFor(Step(d, m, s), Step(e, m, s), m, t)
    {
      if s.PassStep? {
        PassDepends(d, e, m, t);
      } else {
        BatchDepends(d, e, m, s, t);
      }
    }
  }

  /** Besides its own tables a step leaves the other helper tables of its mapping alone, too. */
  lemma StepOthers(d: Destination, m: MappingRuntime, s: MappingStep)
    requires Serves(d, m)
    ensures forall h :: h in d.helpers && (h.mapping != m.id || h.table !in m.tables) ==>
      h in Step(d, m, s).helpers && Step(d, m, s).helpers[h] == d.helpers[h]
  {
    hide Pass;
  }

  lemma StillServes(d: Destination, m: MappingRuntime, s: MappingStep, other: MappingRuntime)
    requires Serves(d, m) && Serves(d, other)
    ensures Serves(Step(d, m, s), other)
  {
    StepLocal(d, m, s);
    hide Step;
  }

  ghost predicate Independent(d: Destination, m: MappingRuntime, s: MappingStep, n: MappingRuntime, t: MappingStep) {
    Serves(d, m) && Serves(d, n) && m.id != n.id && m.tables !! n.tables && Serves(Step(d, m, s), n) && Serves(Step(d, n, t), m)
  }

  /** What m's step leaves of m's own tables and helpers, whether n's step comes before or after it. */
  lemma OwnCommutes(d: Destination, m: MappingRuntime, s: MappingStep, n: MappingRuntime, t: MappingStep, u: TableName)
    requires Independent(d, m, s, n, t) && u in m.tables
    ensures SameFor(Step(Step(d, m, s), n, t), Step(Step(d, n, t), m, s), m, u)
  {
    var a, b := Step(d, m, s), Step(d, n, t);
    assert u in d.realTables && HelperId(m.id, u) in d.helpers;
    StepLocal(d, m, s);
    StepLocal(a, n, t);
    assert SameFor(a, Step(a, n, t), m, u) by {
      hide Step, Serves;
    }
    forall v | v in m.tables
      ensures SameFor(d, b, m, v)
    {
      StepLocal(d, n, t);
      hide Step;
    }
    StepDepends(d, b, m, s);
    hide Step, Serves;
  }

  /** Nobody's tables and helpers stay as they are. */
  lemma OthersCommute(d: Destination, m: MappingRuntime, s: MappingStep, n: MappingRuntime, t: MappingStep)
    requires Independent(d, m, s, n, t)
    ensures var x, y := Step(Step(d, m, s), n, t), Step(Step(d, n, t), m, s);
      && x.realTables.Keys == y.realTables.Keys == d.realTables.Keys && x.helpers.Keys == y.helpers.Keys == d.helpers.Keys
      && (forall u :: u in d.realTables && u !in m.tables && u !in n.tables ==> x.realTables[u] == d.realTables[u] == y.realTables[u])
      && forall h :: h in d.helpers && (h.mapping != m.id || h.table !in m.tables) && (h.mapping != n.id || h.table !in n.tables) ==>
           x.helpers[h] == d.helpers[h] == y.helpers[h]
  {
    var a, b := Step(d, m, s), Step(d, n, t);
    hide Step;
    StepLocal(d, m, s);
    StepLocal(d, n, t);
    StepLocal(a, n, t);
    StepLocal(b, m, s);
    StepOthers(d, m, s);
    StepOthers(d, n, t);
    StepOthers(a, n, t);
    StepOthers(b, m, s);
    hide Step, Serves;
  }

  /** Mappings with different ids and no table in common do not disturb each other: it does not matter which of
      their steps comes first. */
  lemma StepsCommute(d: Destination, m: MappingRuntime, s: MappingStep, n: MappingRuntime, t: MappingStep)
    requires Serves(d, m) && Serves(d, n) && m.id != n.id && m.tables !! n.tables
    ensures Serves(Step(d, m, s), n) && Serves(Step(d, n, t), m)
    ensures Step(Step(d, m, s), n, t) == Step(Step(d, n, t), m, s)
  {
    StillServes(d, m, s, n);
    StillServes(d, n, t, m);
    var x, y := Step(Step(d, m, s), n, t), Step(Step(d, n, t), m, s);
    assert Independent(d, m, s, n, t) && Independent(d, n, t, m, s);
    hide Step, Serves, SameFor, Independent;
    OthersCommute(d, m, s, n, t);
    forall u | u in m.tables
      ensures SameFor(x, y, m, u)
    {
      OwnCommutes(d, m, s, n, t, u);
    }
    forall u | u in n.tables
      ensures SameFor(y, x, n, u)
    {
      OwnCommutes(d, n, t, m, s, u);
    }
    AllSame(x, y, d, m, n);
  }

  lemma AllSame(x: Destination, y: Destination, d: Destination, m: MappingRuntime, n: MappingRuntime)
    requires x.realTables.Keys == y.realTables.Keys == d.realTables.Keys && x.helpers.Keys == y.helpers.Keys == d.helpers.Keys
    requires forall u :: u in d.realTables && u !in m.tables && u !in n.tables ==> x.realTables[u] == d.realTables[u] == y.realTables[u]
    requires forall h :: h in d.helpers && (h.mapping != m.id || h.table !in m.tables) && (h.mapping != n.id || h.table !in n.tables) ==>
      x.helpers[h] == d.helpers[h] == y.helpers[h]
    requires (forall u :: u in m.tables ==> SameFor(x, y, m, u)) && forall u :: u in n.tables ==> SameFor(y, x, n, u)
    ensures x == y
  {
    forall u | u in x.realTables
      ensures x.realTables[u] == y.realTables[u]
    {
      if u in m.tables {
        assert SameFor(x, y, m, u);
      } else if u in n.tables {
        assert SameFor(y, x, n, u);
      }
    }
    forall h | h in x.helpers
      ensures x.helpers[h] == y.helpers[h]
    {
      assert h == HelperId(h.mapping, h.table);
      if h.mapping == m.id && h.table in m.tables {
        assert SameFor(x, y, m, h.table);
      } else if h.mapping == n.id && h.table in n.tables {
        assert SameFor(y, x, n, h.table);
      }
    }
    assert x.realTables == y.realTables && x.helpers == y.helpers;
  }

  // ---- Mappings of an accepted startup plan ----

  /** A running mapping works on the tables that the plan gave it. */
  ghost predicate Runs(m: MappingRuntime, plan: MappingPlan) {
    m.id == plan.id && forall t :: t in m.tables <==> t in plan.tables
  }

  lemma PlannedApart(plans: seq<MappingPlan>, i: nat, j: nat, m: MappingRuntime, n: MappingRuntime)
    requires AllDifferent(GroupLabels(plans)) && i < |plans| && j < |plans| && i != j
    requires Runs(m, plans[i]) && Runs(n, plans[j])
    ensures m.tables !! n.tables
  {
    forall t | t in m.tables && t in n.tables
      ensures false
    {
      var a :| 0 <= a < |plans[i].tables| && plans[i].tables[a] == t;
      var b :| 0 <= b < |plans[j].tables| && plans[j].tables[b] == t;
      TablesOwnedOnce(plans, i, a, j, b);
    }
  }

  /** The steps of two mappings that an accepted plan puts into one destination database commute. */
  lemma PlannedStepsCommute(
    groups: seq<Group>, mappings: seq<MappingPlan>, g: nat, i: nat, j: nat,
    d: Destination, m: MappingRuntime, s: MappingStep, n: MappingRuntime, t: MappingStep)
    requires Partitions(groups, mappings) && g < |groups| && i < |groups[g].mappings| && j < |groups[g].mappings| && i != j
    requires Runs(m, groups[g].mappings[i]) && Runs(n, groups[g].mappings[j]) && m.id != n.id
    requires Serves(d, m) && Serves(d, n)
    ensures Serves(Step(d, m, s), n) && Serves(Step(d, n, t), m)
    ensures Step(Step(d, m, s), n, t) == Step(Step(d, n, t), m, s)
  {
    assert !GroupFails(mappings, groups[g].key);
    PlannedApart(groups[g].mappings, i, j, m, n);
    hide Step, Serves, Partitions;
    StepsCommute(d, m, s, n, t);
  }
}

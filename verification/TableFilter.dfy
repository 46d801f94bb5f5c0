/** Which databases a job verifies, and the filter that keeps the wanted tables. */
module TableFilters {
  import opened Globs

  datatype Name = Name(schema: string, table: string)

  // ---- slices.Contains and appendUniqueStrings ----

  ghost predicate Distinct<T>(s: seq<T>) {
    forall i, j :: 0 <= i < j < |s| ==> s[i] != s[j]
  }

  /** The candidates that are not there yet, each where it first occurs. */
  function Added(existing: seq<string>, candidates: seq<string>): seq<string>
    decreases |candidates|
  {
    if candidates == [] then []
    else if candidates[0] in existing then Added(existing, candidates[1..])
    else [candidates[0]] + Added(existing + [candidates[0]], candidates[1..])
  }

  method AppendUniqueStrings(existing: seq<string>, candidates: seq<string>) returns (r: seq<string>)
    ensures r == existing + Added(existing, candidates)
  {
    r := existing;
    var i := 0;
    while i < |candidates|
      invariant 0 <= i <= |candidates|
      invariant existing + Added(existing, candidates) == r + Added(r, candidates[i..])
    {
      if candidates[i] !in r {
        assert r + [candidates[i]] + Added(r + [candidates[i]], candidates[i + 1..])
          == r + ([candidates[i]] + Added(r + [candidates[i]], candidates[i + 1..]));
        r := r + [candidates[i]];
      }
      i := i + 1;
    }
  }

  /** Nothing is lost, nothing is invented, and nothing is there twice that was not before. */
  lemma {:induction false} AddedMeans(existing: seq<string>, candidates: seq<string>, x: string)
    ensures x in existing + Added(existing, candidates) <==> x in existing || x in candidates
    ensures Distinct(existing) ==> Distinct(existing + Added(existing, candidates))
    decreases |candidates|
  {
    if candidates != [] {
      var c := candidates[0];
      assert candidates == [c] + candidates[1..];
      if c in existing {
        AddedMeans(existing, candidates[1..], x);
      } else {
        AddedMeans(existing + [c], candidates[1..], x);
        assert existing + ([c] + Added(existing + [c], candidates[1..])) == existing + [c] + Added(existing + [c], candidates[1..]);
      }
    }
  }

  // ---- FilterResult ----

  function Filtered<T>(s: seq<T>, keep: T -> bool): seq<T> {
    if s == [] then [] else Filtered(s[..|s| - 1], keep) + if keep(s[|s| - 1]) then [s[|s| - 1]] else []
  }

  /** Go's x[:0] followed by appends while ranging over x: the kept elements move to the front of the same array. */
  method FilterInPlace<T>(a: array<T>, n: nat, keep: T -> bool) returns (m: nat)
    requires n <= a.Length
    modifies a
    ensures m <= n && a[..m] == Filtered(old(a[..n]), keep)
  {
    m := 0;
    var i := 0;
    while i < n
      invariant 0 <= m <= i <= n
      invariant a[..m] == Filtered(old(a[..i]), keep)
      invariant forall k :: i <= k < n ==> a[k] == old(a[k])
    {
      assert old(a[..i + 1])[..i] == old(a[..i]);
      if keep(a[i]) {
        a[m] := a[i];
        m := m + 1;
      }
      i := i + 1;
    }
  }

  lemma {:induction false} FilteredAll<T>(s: seq<T>, keep: T -> bool)
    requires forall i :: 0 <= i < |s| ==> keep(s[i])
    ensures Filtered(s, keep) == s
  {
    if s != [] {
      FilteredAll(s[..|s| - 1], keep);
    }
  }

  /** The regular-expression engine: which texts compile and what they match. */
  datatype Engine = Engine(compiles: string -> bool, matches: (string, string) -> bool)

  ghost predicate Sane(e: Engine) {
    e.compiles(DEFAULT_FILTER) && forall name :: e.matches(DEFAULT_FILTER, name)
  }

  /** The filters of a run; an empty exclusion filter is none. */
  datatype FilterConfig = FilterConfig(schemaFilter: string, tableFilter: string, excludeSchema: string, excludeTable: string)

  predicate HasExclude(cfg: FilterConfig) {
    cfg.excludeSchema != "" || cfg.excludeTable != ""
  }

  function OrDefault(pattern: string): string {
    if pattern == "" then DEFAULT_FILTER else pattern
  }

  predicate MatchesFilter(e: Engine, n: Name, schemaText: string, tableText: string) {
    e.matches(schemaText, n.schema) && e.matches(tableText, n.table)
  }

  /** Wanted tables match both filters and are not matched by both exclusion filters, if there is one. */
  predicate Wanted(e: Engine, cfg: FilterConfig, n: Name) {
    MatchesFilter(e, n, cfg.schemaFilter, cfg.tableFilter)
    && !(HasExclude(cfg) && MatchesFilter(e, n, OrDefault(cfg.excludeSchema), OrDefault(cfg.excludeTable)))
  }

  predicate Compiles(e: Engine, cfg: FilterConfig) {
    e.compiles(cfg.schemaFilter) && e.compiles(cfg.tableFilter)
    && (HasExclude(cfg) ==> e.compiles(OrDefault(cfg.excludeSchema)) && e.compiles(OrDefault(cfg.excludeTable)))
  }

  /** A slice: the first count elements of an array. */
  class Tables {
    var names: array<Name>
    var count: nat

    ghost predicate Valid()
      reads this
    {
      count <= names.Length
    }

    function Contents(): seq<Name>
      requires Valid()
      reads this, names
    {
      names[..count]
    }

    constructor (names: array<Name>)
      ensures Valid() && this.names == names && Contents() == names[..]
    {
      this.names, count := names, names.Length;
    }

    method Filter(keep: Name -> bool)
      requires Valid()
      modifies `count, names
      ensures Valid() && Contents() == Filtered(old(Contents()), keep)
    {
      count := FilterInPlace(names, count, keep);
    }
  }

  function Keeps(e: Engine, cfg: FilterConfig): Name -> bool {
    n => Wanted(e, cfg, n)
  }

  /** Verified, missing and extraneous tables are filtered over their own arrays; a filter that does not compile
      leaves them as they are.  The shortcut for default filters keeps what the general way would keep. */
  method FilterResult(e: Engine, cfg: FilterConfig, verified: Tables, missing: Tables, extraneous: Tables) returns (ok: bool)
    requires Sane(e) && verified.Valid() && missing.Valid() && extraneous.Valid()
    requires verified != missing && verified != extraneous && missing != extraneous
    requires verified.names != missing.names && verified.names != extraneous.names && missing.names != extraneous.names
    modifies verified`count, missing`count, extraneous`count, verified.names, missing.names, extraneous.names
    ensures verified.Valid() && missing.Valid() && extraneous.Valid() && ok == Compiles(e, cfg)
    ensures ok ==> verified.Contents() == Filtered(old(verified.Contents()), Keeps(e, cfg))
    ensures ok ==> missing.Contents() == Filtered(old(missing.Contents()), Keeps(e, cfg))
    ensures ok ==> extraneous.Contents() == Filtered(old(extraneous.Contents()), Keeps(e, cfg))
    ensures !ok ==> verified.Contents() == old(verified.Contents()) && missing.Contents() == old(missing.Contents())
    ensures !ok ==> extraneous.Contents() == old(extraneous.Contents())
  {
    if cfg.schemaFilter == DEFAULT_FILTER && cfg.tableFilter == DEFAULT_FILTER && !HasExclude(cfg) {
      FilteredAll(verified.Contents(), Keeps(e, cfg));
      FilteredAll(missing.Contents(), Keeps(e, cfg));
      FilteredAll(extraneous.Contents(), Keeps(e, cfg));
      return true;
    }
    if !e.compiles(cfg.schemaFilter) || !e.compiles(cfg.tableFilter) {
      return false;
    }
    if HasExclude(cfg) {
      if !e.compiles(OrDefault(cfg.excludeSchema)) || !e.compiles(OrDefault(cfg.excludeTable)) {
        return false;
      }
    }
    verified.Filter(Keeps(e, cfg));
    missing.Filter(Keeps(e, cfg));
    extraneous.Filter(Keeps(e, cfg));
    ok := true;
  }

  // ---- Resolve ----

  datatype Selection = Selection(databaseMatch: string, schemaGlobs: seq<string>, tableGlobs: seq<string>)

  datatype DatabasePlan = DatabasePlan(database: string, schemaGlobs: seq<string>, tableGlobs: seq<string>)

  predicate PlainSelection(s: Selection) {
    && Plain(s.databaseMatch) && s.schemaGlobs != [] && s.tableGlobs != []
    && (forall i :: 0 <= i < |s.schemaGlobs| ==> Plain(s.schemaGlobs[i]))
    && (forall i :: 0 <= i < |s.tableGlobs| ==> Plain(s.tableGlobs[i]))
  }

  predicate Offers(s: Selection, database: string, globs: seq<string>, g: string) {
    GlobMatches(s.databaseMatch, database) && g in globs
  }

  /** The globs of a database are gathered from every selection that matches it. */
  ghost predicate Gathers(globs: seq<string>, selections: seq<Selection>, database: string, of: Selection -> seq<string>) {
    forall g :: g in globs <==> exists s :: s in selections && Offers(s, database, of(s), g)
  }

  function SchemasOf(): Selection -> seq<string> {
    (s: Selection) => s.schemaGlobs
  }

  function TablesOf(): Selection -> seq<string> {
    (s: Selection) => s.tableGlobs
  }

  method GatherGlobs(selections: seq<Selection>, database: string) returns (schemaGlobs: seq<string>, tableGlobs: seq<string>)
    ensures Gathers(schemaGlobs, selections, database, SchemasOf())
    ensures Gathers(tableGlobs, selections, database, TablesOf())
  {
    schemaGlobs, tableGlobs := [], [];
    var i := 0;
    while i < |selections|
      invariant 0 <= i <= |selections|
      invariant Gathers(schemaGlobs, selections[..i], database, SchemasOf())
      invariant Gathers(tableGlobs, selections[..i], database, TablesOf())
    {
      var selection := selections[i];
      if GlobMatches(selection.databaseMatch, database) {
        ghost var schemas, tables := schemaGlobs, tableGlobs;
        schemaGlobs := AppendUniqueStrings(schemaGlobs, selection.schemaGlobs);
        tableGlobs := AppendUniqueStrings(tableGlobs, selection.tableGlobs);
        GatherMore(schemas, schemaGlobs, selections, i, database, SchemasOf());
        GatherMore(tables, tableGlobs, selections, i, database, TablesOf());
      } else {
        GatherSame(schemaGlobs, selections, i, database, SchemasOf());
        GatherSame(tableGlobs, selections, i, database, TablesOf());
      }
      i := i + 1;
    }
    assert selections[..i] == selections;
  }

  lemma GatherMore(before: seq<string>, after: seq<string>, selections: seq<Selection>, i: nat, database: string, of: Selection -> seq<string>)
    requires i < |selections| && Gathers(before, selections[..i], database, of)
    requires GlobMatches(selections[i].databaseMatch, database) && after == before + Added(before, of(selections[i]))
    ensures Gathers(after, selections[..i + 1], database, of)
  {
    assert selections[..i + 1] == selections[..i] + [selections[i]];
    forall g
      ensures g in after <==> exists s :: s in selections[..i + 1] && Offers(s, database, of(s), g)
    {
      AddedMeans(before, of(selections[i]), g);
      if g in of(selections[i]) {
        assert selections[i] in selections[..i + 1] && Offers(selections[i], database, of(selections[i]), g);
      }
      assert forall s :: s in selections[..i + 1] <==> s in selections[..i] || s == selections[i];
    }
  }

  lemma GatherSame(globs: seq<string>, selections: seq<Selection>, i: nat, database: string, of: Selection -> seq<string>)
    requires i < |selections| && Gathers(globs, selections[..i], database, of)
    requires !GlobMatches(selections[i].databaseMatch, database)
    ensures Gathers(globs, selections[..i + 1], database, of)
  {
    assert selections[..i + 1] == selections[..i] + [selections[i]];
    assert forall s :: s in selections[..i + 1] <==> s in selections[..i] || s == selections[i];
  }

  ghost predicate Chosen(selections: seq<Selection>, database: string) {
    exists s :: s in selections && GlobMatches(s.databaseMatch, database)
  }

  /** The configured databases that a selection matches, in configured order. */
  ghost function ChosenOf(selections: seq<Selection>, databases: seq<string>): seq<string> {
    if databases == [] then []
    else
      var n := |databases| - 1;
      ChosenOf(selections, databases[..n]) + if Chosen(selections, databases[n]) then [databases[n]] else []
  }

  function DatabasesOf(plans: seq<DatabasePlan>): seq<string> {
    seq(|plans|, i requires 0 <= i < |plans| => plans[i].database)
  }

  /** The plan has the globs of all selections for its database. */
  ghost predicate PlanGathers(p: DatabasePlan, selections: seq<Selection>) {
    Gathers(p.schemaGlobs, selections, p.database, SchemasOf()) && Gathers(p.tableGlobs, selections, p.database, TablesOf())
  }

  lemma {:induction false} ChosenNone(selections: seq<Selection>, databases: seq<string>)
    ensures ChosenOf(selections, databases) == [] <==> forall d :: d in databases ==> !Chosen(selections, d)
  {
    if databases != [] {
      var n := |databases| - 1;
      ChosenNone(selections, databases[..n]);
      assert databases == databases[..n] + [databases[n]];
      hide Chosen;
    }
  }

  /** The plans of a job: one for every configured database that a selection matches, in configured order, with the
      globs of all matching selections. */
  method Resolve(selections: seq<Selection>, databases: seq<string>) returns (plans: seq<DatabasePlan>, failed: bool)
    requires forall i :: 0 <= i < |selections| ==> PlainSelection(selections[i])
    ensures DatabasesOf(plans) == ChosenOf(selections, databases)
    ensures forall i :: 0 <= i < |plans| ==> PlanGathers(plans[i], selections)
    ensures failed <==> forall d :: d in databases ==> !Chosen(selections, d)
  {
    plans := [];
    var i := 0;
    while i < |databases|
      invariant 0 <= i <= |databases|
      invariant DatabasesOf(plans) == ChosenOf(selections, databases[..i])
      invariant forall k :: 0 <= k < |plans| ==> PlanGathers(plans[k], selections)
    {
      var schemaGlobs, tableGlobs := GatherGlobs(selections, databases[i]);
      GatheredNone(schemaGlobs, selections, databases[i]);
      assert databases[..i + 1][..i] == databases[..i];
      if |schemaGlobs| != 0 || |tableGlobs| != 0 {
        ChosenByTable(tableGlobs, selections, databases[i]);
        plans := plans + [DatabasePlan(databases[i], schemaGlobs, tableGlobs)];
      }
      i := i + 1;
    }
    assert databases[..i] == databases;
    ChosenNone(selections, databases);
    failed := |plans| == 0;
  }

  lemma GatheredNone(schemaGlobs: seq<string>, selections: seq<Selection>, database: string)
    requires Gathers(schemaGlobs, selections, database, SchemasOf())
    requires forall i :: 0 <= i < |selections| ==> PlainSelection(selections[i])
    ensures schemaGlobs != [] <==> Chosen(selections, database)
  {
    if s :| s in selections && GlobMatches(s.databaseMatch, database) {
      assert Offers(s, database, SchemasOf()(s), s.schemaGlobs[0]);
      assert s.schemaGlobs[0] in schemaGlobs;
    }
    if schemaGlobs != [] {
      assert schemaGlobs[0] in schemaGlobs;
    }
  }

  lemma ChosenByTable(tableGlobs: seq<string>, selections: seq<Selection>, database: string)
    requires Gathers(tableGlobs, selections, database, TablesOf())
    ensures tableGlobs != [] ==> Chosen(selections, database)
  {
    if tableGlobs != [] {
      assert tableGlobs[0] in tableGlobs;
    }
  }

  /** Some selection for this database has a glob for the name. */
  ghost predicate SomeSelects(selections: seq<Selection>, database: string, of: Selection -> seq<string>, name: string) {
    exists s :: s in selections && GlobMatches(s.databaseMatch, database) && SomeGlobMatches(of(s), name)
  }

  lemma GatheredMatch(globs: seq<string>, selections: seq<Selection>, database: string, of: Selection -> seq<string>, name: string)
    requires Gathers(globs, selections, database, of)
    ensures SomeGlobMatches(globs, name) <==> SomeSelects(selections, database, of, name)
  {
    if i :| 0 <= i < |globs| && GlobMatches(globs[i], name) {
      assert globs[i] in globs;
      var s :| s in selections && Offers(s, database, of(s), globs[i]);
      var k :| 0 <= k < |of(s)| && of(s)[k] == globs[i];
      assert GlobMatches(of(s)[k], name);
    }
    if s :| s in selections && GlobMatches(s.databaseMatch, database) && SomeGlobMatches(of(s), name) {
      var k :| 0 <= k < |of(s)| && GlobMatches(of(s)[k], name);
      assert Offers(s, database, of(s), of(s)[k]);
      assert of(s)[k] in globs;
      var i :| 0 <= i < |globs| && globs[i] == of(s)[k];
    }
  }

  /** The compiled filter of a database keeps a table exactly if some selection wants its schema and some selection
      wants its name .. */
  lemma PlanKeeps(plan: DatabasePlan, selections: seq<Selection>, n: Name)
    requires Gathers(plan.schemaGlobs, selections, plan.database, SchemasOf())
    requires Gathers(plan.tableGlobs, selections, plan.database, TablesOf())
    requires plan.schemaGlobs != [] && plan.tableGlobs != []
    requires forall i :: 0 <= i < |plan.schemaGlobs| ==> Plain(plan.schemaGlobs[i])
    requires forall i :: 0 <= i < |plan.tableGlobs| ==> Plain(plan.tableGlobs[i])
    ensures TextMatches(FilterText(plan.schemaGlobs), n.schema) && TextMatches(FilterText(plan.tableGlobs), n.table)
      <==> SomeSelects(selections, plan.database, SchemasOf(), n.schema) && SomeSelects(selections, plan.database, TablesOf(), n.table)
  {
    FilterMeans(plan.schemaGlobs, n.schema);
    FilterMeans(plan.tableGlobs, n.table);
    GatheredMatch(plan.schemaGlobs, selections, plan.database, SchemasOf(), n.schema);
    GatheredMatch(plan.tableGlobs, selections, plan.database, TablesOf(), n.table);
  }

  /** The engine as it reads the texts written for globs. */
  const TEXTS := Engine(TextCompiles, TextMatches)

  /** So the filter that a run gets compiles, and keeps a table exactly if some selection wants its schema and some
      selection wants its name. */
  lemma PlanFilters(plan: DatabasePlan, selections: seq<Selection>, n: Name)
    requires PlanGathers(plan, selections) && plan.schemaGlobs != [] && plan.tableGlobs != []
    requires forall i :: 0 <= i < |plan.schemaGlobs| ==> Plain(plan.schemaGlobs[i])
    requires forall i :: 0 <= i < |plan.tableGlobs| ==> Plain(plan.tableGlobs[i])
    ensures var cfg := FilterConfig(FilterText(plan.schemaGlobs), FilterText(plan.tableGlobs), "", "");
      && Sane(TEXTS) && Compiles(TEXTS, cfg)
      && (Keeps(TEXTS, cfg)(n) <==>
            SomeSelects(selections, plan.database, SchemasOf(), n.schema) && SomeSelects(selections, plan.database, TablesOf(), n.table))
  {
    FilterCompiles(plan.schemaGlobs);
    FilterCompiles(plan.tableGlobs);
    PlanKeeps(plan, selections, n);
  }

  /** These need not be the same selection: a.y is kept although only a.x and b.y were asked for. */
  lemma SelectionsCross()
    ensures var selections := [Selection("*", ["a"], ["x"]), Selection("*", ["b"], ["y"])];
      && SomeSelects(selections, "d", SchemasOf(), "a") && SomeSelects(selections, "d", TablesOf(), "y")
      && forall s :: s in selections ==> !(SomeGlobMatches(s.schemaGlobs, "a") && SomeGlobMatches(s.tableGlobs, "y"))
  {
    var first, second := Selection("*", ["a"], ["x"]), Selection("*", ["b"], ["y"]);
    var selections := [first, second];
    StarMatches("d");
    assert "a"[1..] == [] && "y"[1..] == [];
    assert GlobMatches("a", "a") && GlobMatches("y", "y") && !GlobMatches("x", "y") && !GlobMatches("b", "a");
    assert SchemasOf()(first)[0] == "a" && TablesOf()(second)[0] == "y";
    assert SomeGlobMatches(SchemasOf()(first), "a") && SomeGlobMatches(TablesOf()(second), "y");
    assert first in selections && second in selections;
  }
}

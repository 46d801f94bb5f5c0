/** The order in which one mapping's tables are reconciled: parents before children, the
    configured order deciding between tables that could come next. */
module HelperPlan {
  import opened Seqs

  datatype TableName = TableName(schema: string, table: string)

  type Column = string

  /** What happens to rows whose referenced row is deleted. */
  datatype ForeignKeyAction = NoAction | Cascade | SetNull | Restrict

  /** The columns of a row that name a row of another table, pairwise with that table's columns. */
  datatype ForeignKey =
    ForeignKey(columns: seq<Column>, referencedTable: TableName, referencedColumns: seq<Column>, onDelete: ForeignKeyAction)

  datatype TableSchema = TableSchema(
    columns: seq<Column>, nullable: set<Column>, generated: set<Column>, primaryKey: seq<Column>, foreignKeys: seq<ForeignKey>)

  type ValidatedSchema = map<TableName, TableSchema>

  datatype ReconcileOrder = ReconcileOrder(upsertOrder: seq<TableName>, deleteOrder: seq<TableName>)

  datatype PlanResult =
    | Planned(order: ReconcileOrder)
    | MissingValidatedTable(table: TableName)
    | DependencyCycle(tables: seq<TableName>)

  /** An edge (p, c): the table at position c references the table at position p. */
  type Edges = set<(nat, nat)>

  ghost predicate InRange(edges: Edges, n: nat) {
    forall e :: e in edges ==> e.0 < n && e.1 < n
  }

  function Parents(edges: Edges, c: nat): set<nat> {
    set e | e in edges && e.1 == c :: e.0
  }

  predicate IsBelow(x: nat, n: nat) {
    x < n
  }

  function UpTo(n: nat): set<nat> {
    set x: nat | x < n && IsBelow(x, n)
  }

  predicate Below(s: seq<nat>, n: nat) {
    forall i :: 0 <= i < |s| ==> s[i] < n
  }

  ghost predicate NoDuplicates(s: seq<nat>) {
    forall i, j :: 0 <= i < j < |s| ==> s[i] != s[j]
  }

  // ---- Topological orders and cycles ----

  /** Parents come before their children. */
  ghost predicate ParentsFirst(order: seq<nat>, edges: Edges) {
    forall i :: 0 <= i < |order| ==> Parents(edges, order[i]) <= ToSet(order[..i])
  }

  ghost predicate Topological(order: seq<nat>, n: nat, edges: Edges) {
    && NoDuplicates(order) && ToSet(order) == UpTo(n)
    && ParentsFirst(order, edges)
  }

  /** Tables each of which references the next. */
  ghost predicate IsChain(walk: seq<nat>, edges: Edges) {
    forall i, j :: 0 <= i < j < |walk| && j == i + 1 ==> (walk[j], walk[i]) in edges
  }

  ghost predicate IsCycle(walk: seq<nat>, edges: Edges) {
    |walk| >= 2 && walk[0] == walk[|walk| - 1] && IsChain(walk, edges)
  }

  ghost predicate Cyclic(edges: Edges) {
    exists walk :: IsCycle(walk, edges)
  }

  function IndexOf(order: seq<nat>, x: nat): nat
    requires x in order
    ensures IndexOf(order, x) < |order| && order[IndexOf(order, x)] == x
  {
    if order[0] == x then 0 else 1 + IndexOf(order[1..], x)
  }

  /** Along a chain that starts in a parents-first order the positions go down. */
  lemma {:induction false} ChainDescends(order: seq<nat>, edges: Edges, walk: seq<nat>, k: nat)
    requires NoDuplicates(order) && ParentsFirst(order, edges)
    requires IsChain(walk, edges) && 0 < k < |walk| && walk[0] in order
    ensures walk[k] in order && IndexOf(order, walk[k]) < IndexOf(order, walk[0])
  {
    var p, c := walk[k], walk[k - 1];
    assert (p, c) in edges;
    assert p in Parents(edges, c);
    if k > 1 {
      ChainDescends(order, edges, walk, k - 1);
    }
    var i := IndexOf(order, c);
    assert p in ToSet(order[..i]);
    var j :| 0 <= j < i && order[j] == p;
    assert IndexOf(order, p) == j;
  }

  lemma TopologicalIsAcyclic(order: seq<nat>, n: nat, edges: Edges)
    requires Topological(order, n, edges) && InRange(edges, n)
    ensures !Cyclic(edges)
  {
    if walk :| IsCycle(walk, edges) {
      assert (walk[1], walk[0]) in edges;
      assert walk[0] in ToSet(order);
      ChainDescends(order, edges, walk, |walk| - 1);
    }
  }

  /** Tables each of which references one of them. */
  ghost predicate Stuck(remaining: set<nat>, edges: Edges) {
    remaining != {} && forall c :: c in remaining ==> Parents(edges, c) * remaining != {}
  }

  lemma {:induction false} StuckWalk(remaining: set<nat>, edges: Edges, start: nat, len: nat) returns (walk: seq<nat>)
    requires Stuck(remaining, edges) && start in remaining && len >= 1
    ensures |walk| == len && walk[0] == start && IsChain(walk, edges) && ToSet(walk) <= remaining
  {
    if len == 1 {
      walk := [start];
    } else {
      var shorter := StuckWalk(remaining, edges, start, len - 1);
      var c := shorter[|shorter| - 1];
      assert c in ToSet(shorter);
      var p :| p in Parents(edges, c) * remaining;
      walk := shorter + [p];
    }
  }

  lemma {:induction false} NoDuplicatesFit(s: seq<nat>, bound: set<nat>)
    requires NoDuplicates(s) && ToSet(s) <= bound
    ensures |s| <= |bound|
  {
    if s != [] {
      var rest := s[1..];
      assert s[0] in ToSet(s);
      forall x | x in ToSet(rest)
        ensures x in bound - {s[0]}
      {
        var i :| 0 <= i < |rest| && rest[i] == x;
        assert s[i + 1] == x;
      }
      NoDuplicatesFit(rest, bound - {s[0]});
    }
  }

  /** A chain of references from table c comes back to a table it has passed. */
  ghost predicate LeadsToCycle(c: nat, edges: Edges) {
    exists walk, i, j :: 0 <= i < j < |walk| && walk[0] == c && IsChain(walk, edges) && walk[i] == walk[j]
  }

  /** Finitely many tables that all reference one another lead to a cycle. */
  lemma StuckLeadsToCycle(remaining: set<nat>, edges: Edges, c: nat)
    requires Stuck(remaining, edges) && c in remaining
    ensures LeadsToCycle(c, edges)
  {
    var walk := StuckWalk(remaining, edges, c, |remaining| + 1);
    if NoDuplicates(walk) {
      NoDuplicatesFit(walk, remaining);
    }
    var i, j :| 0 <= i < j < |walk| && walk[i] == walk[j];
  }

  lemma LeadingMeansCyclic(c: nat, edges: Edges)
    requires LeadsToCycle(c, edges)
    ensures Cyclic(edges)
  {
    var walk, i, j :| 0 <= i < j < |walk| && walk[0] == c && IsChain(walk, edges) && walk[i] == walk[j];
    var cycle := walk[i..j + 1];
    assert IsCycle(cycle, edges);
  }

  /** What was placed parents first leads to no cycle. */
  lemma PlacedLeadsNowhere(placed: seq<nat>, edges: Edges, c: nat)
    requires NoDuplicates(placed) && ParentsFirst(placed, edges) && c in placed
    ensures !LeadsToCycle(c, edges)
  {
    if walk, i, j :| 0 <= i < j < |walk| && walk[0] == c && IsChain(walk, edges) && walk[i] == walk[j] {
      if i > 0 {
        ChainDescends(placed, edges, walk, i);
      }
      ChainDescends(placed, edges, walk[i..], j - i);
    }
  }

  // ---- The least topological order ----

  /** x could come next: it is not placed yet and all its parents are. */
  ghost predicate Available(x: nat, placed: seq<nat>, n: nat, edges: Edges) {
    x < n && x !in placed && Parents(edges, x) <= ToSet(placed)
  }

  /** Every table placed was the first available one in configured order. */
  ghost predicate Greedy(order: seq<nat>, n: nat, edges: Edges) {
    forall i, x :: 0 <= i < |order| && Available(x, order[..i], n, edges) ==> order[i] <= x
  }

  ghost predicate LexLessEqual(a: seq<nat>, b: seq<nat>) {
    a == b || exists i :: 0 <= i < |a| && i < |b| && a[..i] == b[..i] && a[i] < b[i]
  }

  lemma {:induction false} FirstDifference(a: seq<nat>, b: seq<nat>) returns (i: nat)
    requires |a| == |b| && a != b
    ensures i < |a| && a[..i] == b[..i] && a[i] != b[i]
  {
    if a[0] != b[0] {
      i := 0;
    } else {
      i := FirstDifference(a[1..], b[1..]);
      i := i + 1;
      assert a[..i] == [a[0]] + a[1..][..i - 1] && b[..i] == [b[0]] + b[1..][..i - 1];
    }
  }

  /** The greedy order is the lexicographically least of all topological orders. */
  lemma GreedyIsLeast(order: seq<nat>, other: seq<nat>, n: nat, edges: Edges)
    requires Topological(order, n, edges) && Greedy(order, n, edges) && Topological(other, n, edges)
    ensures LexLessEqual(order, other)
  {
    NoDuplicatesFit(order, ToSet(other));
    NoDuplicatesFit(other, ToSet(order));
    NoDuplicatesFill(order);
    NoDuplicatesFill(other);
    if order != other {
      var i := FirstDifference(order, other);
      assert other[i] in ToSet(other);
      assert Available(other[i], order[..i], n, edges);
    }
  }

  lemma {:induction false} NoDuplicatesFill(s: seq<nat>)
    requires NoDuplicates(s)
    ensures |ToSet(s)| == |s|
  {
    if s != [] {
      NoDuplicatesFill(s[1..]);
      assert ToSet(s) == {s[0]} + ToSet(s[1..]);
      assert s[0] !in ToSet(s[1..]);
    }
  }

  // ---- The foreign-key graph of the selected tables ----

  /** The last position of each selected table. */
  function Positions(selected: seq<TableName>): (pos: map<TableName, nat>)
    ensures forall t :: t in pos ==> pos[t] < |selected| && selected[pos[t]] == t
  {
    if selected == [] then map[]
    else Positions(selected[..|selected| - 1])[selected[|selected| - 1] := |selected| - 1]
  }

  /** The edges into the table at position c from its first k foreign keys; keys to tables that are
      not selected give none. */
  function EdgesInto(pos: map<TableName, nat>, foreignKeys: seq<ForeignKey>, c: nat, k: nat): Edges
    requires k <= |foreignKeys|
  {
    if k == 0 then {}
    else
      EdgesInto(pos, foreignKeys, c, k - 1)
      + if foreignKeys[k - 1].referencedTable in pos then {(pos[foreignKeys[k - 1].referencedTable], c)} else {}
  }

  function EdgesUpTo(selected: seq<TableName>, schema: ValidatedSchema, c: nat): Edges
    requires c <= |selected| && forall i :: 0 <= i < c ==> selected[i] in schema
  {
    if c == 0 then {}
    else
      var fks := schema[selected[c - 1]].foreignKeys;
      EdgesUpTo(selected, schema, c - 1) + EdgesInto(Positions(selected), fks, c - 1, |fks|)
  }

  /** The graph of all selected tables. */
  function GraphOf(selected: seq<TableName>, schema: ValidatedSchema): Edges
    requires forall t :: t in selected ==> t in schema
  {
    EdgesUpTo(selected, schema, |selected|)
  }

  function Children(edges: Edges, p: nat): set<nat> {
    set e | e in edges && e.0 == p :: e.1
  }

  /** What the degree counters and the lists of children say about a set of edges. */
  ghost predicate Describes(indegree: seq<nat>, children: seq<seq<nat>>, edges: Edges, n: nat) {
    && |indegree| == |children| == n && InRange(edges, n)
    && (forall c :: 0 <= c < n ==> indegree[c] == |Parents(edges, c)|)
    && (forall p :: 0 <= p < n ==> NoDuplicates(children[p]) && ToSet(children[p]) == Children(edges, p))
  }

  lemma EdgeSets(edges: Edges, p: nat, c: nat, x: nat)
    requires (p, c) !in edges
    ensures Parents(edges + {(p, c)}, x) == if x == c then Parents(edges, x) + {p} else Parents(edges, x)
    ensures Children(edges + {(p, c)}, x) == if x == p then Children(edges, x) + {c} else Children(edges, x)
    ensures p !in Parents(edges, c) && c !in Children(edges, p)
  {
    var edges' := edges + {(p, c)};
    assert forall e :: e in edges' <==> e in edges || e == (p, c);
    assert (p, c) in edges';
  }

  lemma ToSetSnoc(s: seq<nat>, x: nat)
    ensures ToSet(s + [x]) == ToSet(s) + {x}
  {
  }

  lemma AddEdge(indegree: seq<nat>, children: seq<seq<nat>>, edges: Edges, n: nat, p: nat, c: nat)
    requires Describes(indegree, children, edges, n) && p < n && c < n && (p, c) !in edges
    ensures Describes(indegree[c := indegree[c] + 1], children[p := children[p] + [c]], edges + {(p, c)}, n)
  {
    EdgeSets(edges, p, c, c);
    assert c !in children[p] by {
      EdgeSets(edges, p, c, p);
      assert c !in ToSet(children[p]);
    }
    ToSetSnoc(children[p], c);
    hide Parents, Children, ToSet;
    forall x | 0 <= x < n
      ensures Parents(edges + {(p, c)}, x) == if x == c then Parents(edges, x) + {p} else Parents(edges, x)
      ensures Children(edges + {(p, c)}, x) == if x == p then Children(edges, x) + {c} else Children(edges, x)
    {
      EdgeSets(edges, p, c, x);
    }
  }

  /** Adds the edges from one table's foreign keys, unless they are there already. */
  method AddForeignKeys(
    tablePositions: map<TableName, nat>, foreignKeys: seq<ForeignKey>, childIndex: nat,
    indegree0: seq<nat>, children0: seq<seq<nat>>, edges0: Edges)
    returns (indegree: seq<nat>, children: seq<seq<nat>>, edges: Edges)
    requires |indegree0| == |children0| && Describes(indegree0, children0, edges0, |indegree0|) && childIndex < |indegree0|
    requires forall t :: t in tablePositions ==> tablePositions[t] < |indegree0|
    ensures |indegree| == |children| == |indegree0| && Describes(indegree, children, edges, |indegree0|)
    ensures edges == edges0 + EdgesInto(tablePositions, foreignKeys, childIndex, |foreignKeys|)
  {
    hide Describes;
    indegree, children, edges := indegree0, children0, edges0;
    var k := 0;
    while k < |foreignKeys|
      invariant 0 <= k <= |foreignKeys|
      invariant edges == edges0 + EdgesInto(tablePositions, foreignKeys, childIndex, k)
      invariant |indegree| == |children| == |indegree0| && Describes(indegree, children, edges, |indegree0|)
    {
      if foreignKeys[k].referencedTable in tablePositions {
        var parentIndex := tablePositions[foreignKeys[k].referencedTable];
        if (parentIndex, childIndex) !in edges {
          AddEdge(indegree, children, edges, |indegree0|, parentIndex, childIndex);
          edges := edges + {(parentIndex, childIndex)};
          indegree := indegree[childIndex := indegree[childIndex] + 1];
          children := children[parentIndex := children[parentIndex] + [childIndex]];
        }
      }
      k := k + 1;
    }
  }

  /** The first selected table without a schema is the one at position i. */
  ghost predicate MissingAt(i: nat, selected: seq<TableName>, schema: ValidatedSchema) {
    i < |selected| && selected[i] !in schema && forall j :: 0 <= j < i ==> selected[j] in schema
  }

  ghost predicate FirstWithoutSchema(t: TableName, selected: seq<TableName>, schema: ValidatedSchema) {
    exists i: nat :: MissingAt(i, selected, schema) && selected[i] == t
  }

  /** Builds the counters and lists from the foreign keys, each distinct edge once. */
  method BuildGraph(selected: seq<TableName>, schema: ValidatedSchema)
    returns (missing: seq<TableName>, indegree: seq<nat>, children: seq<seq<nat>>)
    ensures (missing == [] <==> forall t :: t in selected ==> t in schema)
    ensures missing != [] ==> |missing| == 1 && FirstWithoutSchema(missing[0], selected, schema)
    ensures missing == [] ==> Describes(indegree, children, GraphOf(selected, schema), |selected|)
  {
    var n := |selected|;
    var tablePositions := Positions(selected);
    indegree, children := seq(n, _ => 0), seq(n, _ => []);
    var edges: Edges := {};
    assert Describes(indegree, children, edges, n);
    hide Describes, EdgesInto;
    missing := [];
    var childIndex := 0;
    while childIndex < n
      invariant 0 <= childIndex <= n
      invariant forall i :: 0 <= i < childIndex ==> selected[i] in schema
      invariant edges == EdgesUpTo(selected, schema, childIndex)
      invariant |indegree| == |children| == n && Describes(indegree, children, edges, n)
    {
      if selected[childIndex] !in schema {
        missing := [selected[childIndex]];
        assert MissingAt(childIndex, selected, schema);
        return;
      }
      var foreignKeys := schema[selected[childIndex]].foreignKeys;
      indegree, children, edges := AddForeignKeys(tablePositions, foreignKeys, childIndex, indegree, children, edges);
      childIndex := childIndex + 1;
    }
  }

  // ---- sort_unstable on distinct positions ----

  ghost predicate Increasing(s: seq<nat>) {
    forall i, j :: 0 <= i < j < |s| ==> s[i] < s[j]
  }

  function Insert(x: nat, s: seq<nat>): seq<nat> {
    if s == [] || x <= s[0] then [x] + s else [s[0]] + Insert(x, s[1..])
  }

  function Sort(s: seq<nat>): seq<nat> {
    if s == [] then [] else Insert(s[0], Sort(s[1..]))
  }

  lemma {:induction false} InsertMember(x: nat, s: seq<nat>, y: nat)
    ensures y in Insert(x, s) <==> y == x || y in s
  {
    if s != [] && x > s[0] {
      InsertMember(x, s[1..], y);
    }
  }

  lemma {:induction false} InsertIncreasing(x: nat, s: seq<nat>)
    requires Increasing(s) && x !in s
    ensures Increasing(Insert(x, s))
  {
    if s != [] && x > s[0] {
      InsertIncreasing(x, s[1..]);
      var rest := Insert(x, s[1..]);
      forall j | 0 <= j < |rest|
        ensures s[0] < rest[j]
      {
        InsertMember(x, s[1..], rest[j]);
      }
    }
  }

  lemma {:induction false} SortMember(s: seq<nat>, y: nat)
    ensures y in Sort(s) <==> y in s
  {
    if s != [] {
      SortMember(s[1..], y);
      InsertMember(s[0], Sort(s[1..]), y);
    }
  }

  lemma {:induction false} SortIncreasing(s: seq<nat>)
    requires NoDuplicates(s)
    ensures Increasing(Sort(s))
  {
    if s != [] {
      SortIncreasing(s[1..]);
      SortMember(s[1..], s[0]);
      InsertIncreasing(s[0], Sort(s[1..]));
    }
  }

  lemma SortSet(s: seq<nat>)
    ensures ToSet(Sort(s)) == ToSet(s)
  {
    forall y: nat
      ensures y in ToSet(Sort(s)) <==> y in ToSet(s)
    {
      SortMember(s, y);
    }
  }

  lemma SortDescribes(indegree: seq<nat>, children: seq<seq<nat>>, sorted: seq<seq<nat>>, edges: Edges, n: nat)
    requires Describes(indegree, children, edges, n)
    requires |sorted| == n && forall p :: 0 <= p < n ==> sorted[p] == Sort(children[p])
    ensures Describes(indegree, sorted, edges, n)
  {
    forall p | 0 <= p < n
      ensures NoDuplicates(sorted[p]) && ToSet(sorted[p]) == Children(edges, p)
    {
      SortIncreasing(children[p]);
      SortSet(children[p]);
    }
  }

  // ---- The loop over the ready tables ----

  /** The degree counters count the parents not placed yet. */
  ghost predicate Counts(indegree: seq<nat>, placed: set<nat>, edges: Edges) {
    forall c :: 0 <= c < |indegree| ==> indegree[c] == |Parents(edges, c) - placed|
  }

  /** ready lists in order, once each, exactly the tables without parents still to be placed. */
  ghost predicate ReadyFor(ready: seq<nat>, indegree: seq<nat>, placed: seq<nat>) {
    && Increasing(ready)
    && (forall x :: x in ready ==> x < |indegree|)
    && (forall x :: 0 <= x < |indegree| ==> (x in ready <==> x !in placed && indegree[x] == 0))
  }

  /** What is placed has no parents to be placed. */
  ghost predicate Settled(indegree: seq<nat>, placed: seq<nat>) {
    forall x :: x in placed ==> x < |indegree| && indegree[x] == 0
  }

  /** The tables without parents. */
  method Zeros(indegree: seq<nat>) returns (ready: seq<nat>)
    ensures ReadyFor(ready, indegree, [])
  {
    ready := [];
    var i := 0;
    while i < |indegree|
      invariant 0 <= i <= |indegree| && Increasing(ready)
      invariant forall j :: 0 <= j < |ready| ==> ready[j] < i
      invariant forall x :: 0 <= x < i ==> (x in ready <==> indegree[x] == 0)
    {
      if indegree[i] == 0 {
        ready := ready + [i];
      }
      i := i + 1;
    }
  }

  /** A ready table is one that could come next. */
  lemma ReadyIsAvailable(indegree: seq<nat>, placed: seq<nat>, edges: Edges, x: nat)
    requires Counts(indegree, ToSet(placed), edges)
    ensures Available(x, placed, |indegree|, edges) <==> x < |indegree| && x !in placed && indegree[x] == 0
  {
    if x < |indegree| {
      var left := Parents(edges, x) - ToSet(placed);
      assert indegree[x] == |left|;
      assert forall p :: p in Parents(edges, x) && p !in ToSet(placed) ==> p in left;
    }
  }

  /** Placing the first ready table keeps the order correct and greedy. */
  lemma PlaceNext(ready: seq<nat>, indegree: seq<nat>, placed: seq<nat>, edges: Edges)
    requires Counts(indegree, ToSet(placed), edges) && ReadyFor(ready, indegree, placed) && ready != []
    requires NoDuplicates(placed) && ParentsFirst(placed, edges) && Greedy(placed, |indegree|, edges)
    ensures var order := placed + [ready[0]];
      NoDuplicates(order) && ParentsFirst(order, edges) && Greedy(order, |indegree|, edges)
    ensures ready[0] < |indegree|
  {
    var next, order := ready[0], placed + [ready[0]];
    assert next in ready;
    ReadyIsAvailable(indegree, placed, edges, next);
    forall i | 0 <= i < |order|
      ensures order[..i] == placed[..i] && Parents(edges, order[i]) <= ToSet(order[..i])
    {
      assert order[..i] == placed[..i];
      if i == |placed| {
        assert placed[..i] == placed;
      }
    }
    forall i, x | 0 <= i < |order| && Available(x, order[..i], |indegree|, edges)
      ensures order[i] <= x
    {
      assert order[..i] == placed[..i];
      if i == |placed| {
        assert placed[..i] == placed;
        ReadyIsAvailable(indegree, placed, edges, x);
        assert x in ready;
      }
    }
  }

  /** The parents of c that are still to be placed, as counted while the children of next are being
      released: next counts until its child c has been visited. */
  function Pending(edges: Edges, c: nat, placed: set<nat>, next: nat, visited: set<nat>): nat {
    |Parents(edges, c) - placed| + if c in Children(edges, next) && c !in visited then 1 else 0
  }

  lemma BeforeRelease(edges: Edges, c: nat, placed: set<nat>, next: nat)
    requires next !in placed
    ensures |Parents(edges, c) - placed| == Pending(edges, c, placed + {next}, next, {})
  {
    var p := Parents(edges, c);
    assert next in p <==> c in Children(edges, next);
    if next in p {
      assert p - placed == (p - (placed + {next})) + {next};
    } else {
      assert p - placed == p - (placed + {next});
    }
  }

  /** The state of the inner loop over the children of next. */
  ghost predicate Releasing(
    indegree: seq<nat>, ready: seq<nat>, placed: seq<nat>, edges: Edges, next: nat, visited: set<nat>)
  {
    && InRange(edges, |indegree|)
    && (forall c :: 0 <= c < |indegree| ==> indegree[c] == Pending(edges, c, ToSet(placed), next, visited))
    && ReadyFor(ready, indegree, placed)
    && Settled(indegree, placed)
  }

  lemma VisitOne(children: seq<nat>, k: nat)
    requires k < |children| && NoDuplicates(children)
    ensures children[k] in ToSet(children) && children[k] !in ToSet(children[..k])
    ensures ToSet(children[..k + 1]) == ToSet(children[..k]) + {children[k]}
  {
    assert children[..k + 1] == children[..k] + [children[k]];
  }

  lemma SettledSnoc(indegree: seq<nat>, placed: seq<nat>, next: nat)
    requires Settled(indegree, placed) && next < |indegree| && indegree[next] == 0
    ensures Settled(indegree, placed + [next])
  {
  }

  lemma PendingStart(indegree: seq<nat>, before: seq<nat>, edges: Edges, next: nat)
    requires Counts(indegree, ToSet(before), edges) && next !in before
    ensures forall c :: 0 <= c < |indegree| ==> indegree[c] == Pending(edges, c, ToSet(before + [next]), next, {})
  {
    assert next !in ToSet(before);
    ToSetSnoc(before, next);
    hide ToSet, Parents, Children, Pending;
    forall c | 0 <= c < |indegree|
      ensures indegree[c] == Pending(edges, c, ToSet(before + [next]), next, {})
    {
      BeforeRelease(edges, c, ToSet(before), next);
    }
  }

  lemma ReleaseStart(indegree: seq<nat>, ready: seq<nat>, before: seq<nat>, edges: Edges)
    requires InRange(edges, |indegree|) && Counts(indegree, ToSet(before), edges)
    requires ready != [] && ReadyFor(ready, indegree, before) && Settled(indegree, before)
    ensures Releasing(indegree, ready[1..], before + [ready[0]], edges, ready[0], {})
  {
    var next := ready[0];
    assert next < |indegree| && indegree[next] == 0 && next !in before by {
      assert next in ready;
    }
    hide ToSet, ReadyFor, Pending, Settled, Counts, InRange;
    SettledSnoc(indegree, before, next);
    PendingStart(indegree, before, edges, next);
    ReadyTail(ready, indegree, before);
  }

  lemma ReadyTail(ready: seq<nat>, indegree: seq<nat>, before: seq<nat>)
    requires ready != [] && ReadyFor(ready, indegree, before)
    ensures ReadyFor(ready[1..], indegree, before + [ready[0]])
  {
    var next, rest := ready[0], ready[1..];
    assert ready == [next] + rest;
    assert next !in rest by {
      forall i | 0 <= i < |rest|
        ensures rest[i] != next
      {
        assert ready[0] < ready[i + 1];
      }
    }
    assert forall x :: x in ready <==> x == next || x in rest;
  }

  /** The visited child was waiting for next: it is not placed and not ready yet. */
  lemma ChildWaits(children: seq<nat>, k: nat, indegree: seq<nat>, placed: seq<nat>, edges: Edges, next: nat)
    requires k < |children| && NoDuplicates(children) && ToSet(children) == Children(edges, next)
    requires InRange(edges, |indegree|) && Settled(indegree, placed)
    requires forall c :: 0 <= c < |indegree| ==> indegree[c] == Pending(edges, c, ToSet(placed), next, ToSet(children[..k]))
    ensures children[k] < |indegree| && indegree[children[k]] >= 1 && children[k] !in placed
    ensures forall c :: 0 <= c < |indegree| ==>
      Pending(edges, c, ToSet(placed), next, ToSet(children[..k + 1])) + (if c == children[k] then 1 else 0) == indegree[c]
  {
    var child, visited := children[k], ToSet(children[..k]);
    VisitOne(children, k);
    assert child < |indegree| by {
      assert (next, child) in edges;
    }
    assert child in Children(edges, next);
    assert indegree[child] == Pending(edges, child, ToSet(placed), next, visited);
    hide ToSet, Children, Parents, NoDuplicates, InRange;
    PendingVisit(indegree, edges, ToSet(placed), next, visited, child);
  }

  lemma PendingVisit(indegree: seq<nat>, edges: Edges, placed: set<nat>, next: nat, visited: set<nat>, child: nat)
    requires child in Children(edges, next) && child !in visited
    requires forall c :: 0 <= c < |indegree| ==> indegree[c] == Pending(edges, c, placed, next, visited)
    ensures forall c :: 0 <= c < |indegree| ==>
      Pending(edges, c, placed, next, visited + {child}) + (if c == child then 1 else 0) == indegree[c]
  {
    hide Children, Parents;
  }

  lemma ReadyPush(ready: seq<nat>, indegree: seq<nat>, placed: seq<nat>, child: nat)
    requires ReadyFor(ready, indegree, placed) && child < |indegree| && child !in placed && indegree[child] >= 1
    ensures var degree := indegree[child] - 1;
      ReadyFor(if degree == 0 then Sort(ready + [child]) else ready, indegree[child := degree], placed)
  {
    if indegree[child] == 1 {
      assert child !in ready;
      SortIncreasing(ready + [child]);
      forall x: nat
        ensures x in Sort(ready + [child]) <==> x in ready || x == child
      {
        SortMember(ready + [child], x);
      }
    }
  }

  lemma ReleaseChild(
    children: seq<nat>, k: nat, indegree: seq<nat>, ready: seq<nat>, placed: seq<nat>, edges: Edges, next: nat)
    requires k < |children| && NoDuplicates(children) && ToSet(children) == Children(edges, next)
    requires Releasing(indegree, ready, placed, edges, next, ToSet(children[..k]))
    ensures children[k] < |indegree| && indegree[children[k]] >= 1
    ensures var child := children[k];
      var degree := indegree[child] - 1;
      Releasing(indegree[child := degree], if degree == 0 then Sort(ready + [child]) else ready,
        placed, edges, next, ToSet(children[..k + 1]))
  {
    hide Pending, ReadyFor, Sort, NoDuplicates, Children;
    ChildWaits(children, k, indegree, placed, edges, next);
    ReadyPush(ready, indegree, placed, children[k]);
  }

  lemma ReleaseEnd(children: seq<nat>, indegree: seq<nat>, ready: seq<nat>, placed: seq<nat>, edges: Edges, next: nat)
    requires ToSet(children) == Children(edges, next)
    requires Releasing(indegree, ready, placed, edges, next, ToSet(children))
    ensures Counts(indegree, ToSet(placed), edges) && ReadyFor(ready, indegree, placed) && Settled(indegree, placed)
  {
  }

  /** Counts a placed table off for each of its children; children without further parents become ready. */
  method Release(
    children: seq<nat>, indegree0: seq<nat>, ready0: seq<nat>, ghost placed: seq<nat>, ghost edges: Edges, ghost next: nat)
    returns (indegree: seq<nat>, ready: seq<nat>)
    requires NoDuplicates(children) && ToSet(children) == Children(edges, next)
    requires Releasing(indegree0, ready0, placed, edges, next, {})
    ensures |indegree| == |indegree0|
    ensures Counts(indegree, ToSet(placed), edges) && ReadyFor(ready, indegree, placed) && Settled(indegree, placed)
  {
    hide Releasing, NoDuplicates, Children, Sort;
    indegree, ready := indegree0, ready0;
    assert ToSet(children[..0]) == {};
    var k := 0;
    while k < |children|
      invariant 0 <= k <= |children| && |indegree| == |indegree0|
      invariant Releasing(indegree, ready, placed, edges, next, ToSet(children[..k]))
    {
      var childIndex := children[k];
      ReleaseChild(children, k, indegree, ready, placed, edges, next);
      indegree := indegree[childIndex := indegree[childIndex] - 1];
      if indegree[childIndex] == 0 {
        ready := Sort(ready + [childIndex]);
      }
      k := k + 1;
    }
    assert children[..k] == children;
    ReleaseEnd(children, indegree, ready, placed, edges, next);
  }

  lemma PlacedFit(placed: seq<nat>, n: nat)
    requires NoDuplicates(placed) && Below(placed, n)
    ensures |placed| <= n
  {
    UpToSize(n);
    NoDuplicatesFit(placed, UpTo(n));
  }

  lemma {:induction false} UpToSize(n: nat)
    ensures |UpTo(n)| == n
  {
    if n > 0 {
      UpToSize(n - 1);
      assert UpTo(n) == UpTo(n - 1) + {n - 1};
    }
  }

  function Names(selected: seq<TableName>, order: seq<nat>): seq<TableName>
    requires Below(order, |selected|)
  {
    seq(|order|, i requires 0 <= i < |order| => selected[order[i]])
  }

  /** Places ready tables, first ones first, until none is left. */
  method Place(selected: seq<TableName>, indegree0: seq<nat>, children: seq<seq<nat>>, ghost edges: Edges)
    returns (upsertOrder: seq<TableName>, indegree: seq<nat>, ghost placed: seq<nat>)
    requires Describes(indegree0, children, edges, |selected|)
    ensures |upsertOrder| == |placed| && |indegree| == |selected|
    ensures NoDuplicates(placed) && ParentsFirst(placed, edges) && Greedy(placed, |selected|, edges)
    ensures Below(placed, |selected|) && upsertOrder == Names(selected, placed)
    ensures Counts(indegree, ToSet(placed), edges)
    ensures forall x :: 0 <= x < |selected| ==> (x in placed <==> indegree[x] == 0)
  {
    hide ParentsFirst, Greedy, Counts, ReadyFor, Settled, NoDuplicates, Releasing, Children;
    indegree := indegree0;
    var ready := Zeros(indegree);
    upsertOrder, placed := [], [];
    PlaceStart(indegree, edges);
    while |ready| > 0
      invariant |indegree| == |selected| && |upsertOrder| == |placed| <= |selected|
      invariant NoDuplicates(placed) && ParentsFirst(placed, edges) && Greedy(placed, |selected|, edges)
      invariant Below(placed, |selected|) && upsertOrder == Names(selected, placed)
      invariant Counts(indegree, ToSet(placed), edges) && ReadyFor(ready, indegree, placed) && Settled(indegree, placed)
      decreases |selected| - |placed|
    {
      var nextIndex := ready[0];
      PlaceNext(ready, indegree, placed, edges);
      ReleaseStart(indegree, ready, placed, edges);
      ready := ready[1..];
      upsertOrder := upsertOrder + [selected[nextIndex]];
      placed := placed + [nextIndex];
      PlacedFit(placed, |selected|);
      indegree, ready := Release(children[nextIndex], indegree, ready, placed, edges, nextIndex);
    }
    PlaceEnd(indegree, placed);
  }

  lemma PlaceStart(indegree: seq<nat>, edges: Edges)
    requires forall c :: 0 <= c < |indegree| ==> indegree[c] == |Parents(edges, c)|
    ensures NoDuplicates([]) && ParentsFirst([], edges) && Greedy([], |indegree|, edges)
    ensures Counts(indegree, ToSet([]), edges) && Settled(indegree, [])
  {
    forall c | 0 <= c < |indegree|
      ensures Parents(edges, c) - ToSet([]) == Parents(edges, c)
    {
    }
  }

  lemma PlaceEnd(indegree: seq<nat>, placed: seq<nat>)
    requires ReadyFor([], indegree, placed) && Settled(indegree, placed)
    ensures forall x :: 0 <= x < |indegree| ==> (x in placed <==> indegree[x] == 0)
  {
  }

  // ---- ReconcileOrder::from_schema ----

  function Reverse<T>(s: seq<T>): seq<T> {
    if s == [] then [] else Reverse(s[1..]) + [s[0]]
  }

  /** The positions whose counter has not reached zero, among the first n. */
  function OpenPositions(indegree: seq<nat>, n: nat): (r: seq<nat>)
    requires n <= |indegree|
    ensures Below(r, n)
  {
    if n == 0 then [] else OpenPositions(indegree, n - 1) + if indegree[n - 1] > 0 then [n - 1] else []
  }

  lemma {:induction false} OpenPositionsMember(indegree: seq<nat>, n: nat, x: nat)
    requires n <= |indegree|
    ensures x in OpenPositions(indegree, n) <==> x < n && indegree[x] > 0
  {
    if n > 0 {
      OpenPositionsMember(indegree, n - 1, x);
    }
  }

  lemma {:induction false} OpenPositionsIncrease(indegree: seq<nat>, n: nat)
    requires n <= |indegree|
    ensures Increasing(OpenPositions(indegree, n))
  {
    if n > 0 {
      OpenPositionsIncrease(indegree, n - 1);
    }
  }

  /** The tables whose counter has not reached zero. */
  method Unplaced(selected: seq<TableName>, indegree: seq<nat>) returns (tables: seq<TableName>)
    requires |indegree| == |selected|
    ensures tables == Names(selected, OpenPositions(indegree, |indegree|))
  {
    tables := [];
    var i := 0;
    while i < |indegree|
      invariant 0 <= i <= |indegree| && tables == Names(selected, OpenPositions(indegree, i))
    {
      if indegree[i] > 0 {
        tables := tables + [selected[i]];
      }
      i := i + 1;
    }
  }

  /** What is left over references itself. */
  lemma LeftoverIsStuck(indegree: seq<nat>, placed: seq<nat>, positions: seq<nat>, edges: Edges)
    requires InRange(edges, |indegree|) && Counts(indegree, ToSet(placed), edges)
    requires positions != [] && Below(positions, |indegree|)
    requires forall x :: 0 <= x < |indegree| ==> (x in placed <==> indegree[x] == 0) && (x in positions <==> indegree[x] > 0)
    ensures Stuck(ToSet(positions), edges)
  {
    assert positions[0] in ToSet(positions);
    forall c | c in ToSet(positions)
      ensures Parents(edges, c) * ToSet(positions) != {}
    {
      var left := Parents(edges, c) - ToSet(placed);
      assert |left| > 0;
      var p :| p in left;
      assert (p, c) in edges;
      assert p in Parents(edges, c) * ToSet(positions);
    }
  }

  lemma AllPlaced(placed: seq<nat>, n: nat)
    requires NoDuplicates(placed) && Below(placed, n)
    ensures |placed| == n <==> ToSet(placed) == UpTo(n)
  {
    UpToSize(n);
    NoDuplicatesFill(placed);
    assert ToSet(placed) <= UpTo(n);
    if |placed| == n && !(UpTo(n) <= ToSet(placed)) {
      var x :| x in UpTo(n) && x !in ToSet(placed);
      SubsetSmaller(ToSet(placed), UpTo(n) - {x});
    }
  }

  lemma {:induction false} SubsetSmaller(a: set<nat>, b: set<nat>)
    requires a <= b
    ensures |a| <= |b|
  {
    if a != {} {
      var x :| x in a;
      SubsetSmaller(a - {x}, b - {x});
    }
  }

  /** The least topological order of the selected tables, and its reverse. */
  ghost predicate PlannedAs(order: ReconcileOrder, selected: seq<TableName>, placed: seq<nat>, edges: Edges) {
    && Topological(placed, |selected|, edges) && Greedy(placed, |selected|, edges)
    && Below(placed, |selected|) && order.upsertOrder == Names(selected, placed)
    && order.deleteOrder == Reverse(order.upsertOrder)
  }

  /** In configured order, the tables that lead to a cycle; each has a parent among them. */
  ghost predicate ReportedAs(tables: seq<TableName>, selected: seq<TableName>, unplaced: seq<nat>, edges: Edges) {
    && Increasing(unplaced) && Below(unplaced, |selected|) && tables == Names(selected, unplaced)
    && Stuck(ToSet(unplaced), edges)
    && forall x :: 0 <= x < |selected| ==> (x in unplaced <==> LeadsToCycle(x, edges))
  }

  /** Orders the selected tables, or reports those that no order can hold. */
  method FromSchema(selected: seq<TableName>, schema: ValidatedSchema)
    returns (r: PlanResult, ghost placed: seq<nat>, ghost unplaced: seq<nat>)
    ensures r.MissingValidatedTable? <==> exists t :: t in selected && t !in schema
    ensures r.MissingValidatedTable? ==> FirstWithoutSchema(r.table, selected, schema)
    ensures (forall t :: t in selected ==> t in schema) ==>
      var edges := GraphOf(selected, schema);
      && (r.Planned? <==> !Cyclic(edges))
      && (r.Planned? ==> PlannedAs(r.order, selected, placed, edges))
      && (r.DependencyCycle? ==> ReportedAs(r.tables, selected, unplaced, edges))
  {
    placed, unplaced := [], [];
    var missing, indegree, children := BuildGraph(selected, schema);
    if missing != [] {
      return MissingValidatedTable(missing[0]), [], [];
    }
    r, placed, unplaced := FromGraph(selected, indegree, children, GraphOf(selected, schema));
  }

  method FromGraph(selected: seq<TableName>, indegree: seq<nat>, children: seq<seq<nat>>, ghost edges: Edges)
    returns (r: PlanResult, ghost placed: seq<nat>, ghost unplaced: seq<nat>)
    requires Describes(indegree, children, edges, |selected|)
    ensures !r.MissingValidatedTable? && (r.Planned? <==> !Cyclic(edges))
    ensures r.Planned? ==> PlannedAs(r.order, selected, placed, edges)
    ensures r.DependencyCycle? ==> ReportedAs(r.tables, selected, unplaced, edges)
  {
    unplaced := [];
    var sorted := seq(|children|, p requires 0 <= p < |children| => Sort(children[p]));
    SortDescribes(indegree, children, sorted, edges, |selected|);
    assert InRange(edges, |selected|);
    hide Describes, Stuck, LeadsToCycle, ParentsFirst, Greedy, Counts, Cyclic, NoDuplicates, InRange, UpTo, ToSet;
    hide OpenPositions, Increasing, ReportedAs;
    var upsertOrder, left;
    upsertOrder, left, placed := Place(selected, indegree, sorted, edges);
    AllPlaced(placed, |selected|);
    if |upsertOrder| != |selected| {
      var tables := Unplaced(selected, left);
      unplaced := OpenPositions(left, |left|);
      OpenAreReported(selected, left, placed, edges);
      r := DependencyCycle(tables);
    } else {
      assert Topological(placed, |selected|, edges);
      TopologicalIsAcyclic(placed, |selected|, edges);
      r := Planned(ReconcileOrder(upsertOrder, Reverse(upsertOrder)));
    }
  }

  /** The open positions of a run that stopped early are what the error has to name. */
  lemma OpenAreReported(selected: seq<TableName>, left: seq<nat>, placed: seq<nat>, edges: Edges)
    requires |left| == |selected| && InRange(edges, |left|) && NoDuplicates(placed) && ParentsFirst(placed, edges)
    requires Counts(left, ToSet(placed), edges)
    requires Below(placed, |left|) && ToSet(placed) != UpTo(|left|)
    requires forall x :: 0 <= x < |left| ==> (x in placed <==> left[x] == 0)
    ensures Cyclic(edges)
    ensures ReportedAs(Names(selected, OpenPositions(left, |left|)), selected, OpenPositions(left, |left|), edges)
  {
    hide Stuck, LeadsToCycle, Cyclic, ParentsFirst, NoDuplicates, Counts, InRange, UpTo;
    OpenPositionsIncrease(left, |left|);
    forall x: nat
      ensures x in OpenPositions(left, |left|) <==> x < |left| && left[x] > 0
    {
      OpenPositionsMember(left, |left|, x);
    }
    hide OpenPositions;
    CycleReport(left, placed, OpenPositions(left, |left|), edges);
  }

  lemma CycleReport(left: seq<nat>, placed: seq<nat>, unplaced: seq<nat>, edges: Edges)
    requires InRange(edges, |left|) && NoDuplicates(placed) && ParentsFirst(placed, edges)
    requires Counts(left, ToSet(placed), edges)
    requires Below(placed, |left|) && Below(unplaced, |left|) && ToSet(placed) != UpTo(|left|)
    requires forall x :: 0 <= x < |left| ==> (x in placed <==> left[x] == 0) && (x in unplaced <==> left[x] > 0)
    ensures Stuck(ToSet(unplaced), edges) && Cyclic(edges)
    ensures forall x :: 0 <= x < |left| ==> (x in unplaced <==> LeadsToCycle(x, edges))
  {
    var missed := Missed(left, placed, unplaced);
    LeftoverIsStuck(left, placed, unplaced, edges);
    hide Stuck, LeadsToCycle, Cyclic, ParentsFirst, NoDuplicates, Counts, InRange, Below, UpTo;
    forall x | 0 <= x < |left|
      ensures x in unplaced <==> LeadsToCycle(x, edges)
    {
      UnplacedLeads(placed, unplaced, edges, x);
    }
    LeadingMeansCyclic(missed, edges);
  }

  lemma Missed(left: seq<nat>, placed: seq<nat>, unplaced: seq<nat>) returns (missed: nat)
    requires Below(placed, |left|) && ToSet(placed) != UpTo(|left|)
    requires forall x :: 0 <= x < |left| ==> (x in placed <==> left[x] == 0) && (x in unplaced <==> left[x] > 0)
    ensures missed < |left| && missed in unplaced
  {
    assert ToSet(placed) <= UpTo(|left|);
    missed :| missed in UpTo(|left|) && missed !in ToSet(placed);
  }

  lemma UnplacedLeads(placed: seq<nat>, unplaced: seq<nat>, edges: Edges, x: nat)
    requires NoDuplicates(placed) && ParentsFirst(placed, edges) && Stuck(ToSet(unplaced), edges)
    requires x in placed <==> x !in unplaced
    ensures x in unplaced <==> LeadsToCycle(x, edges)
  {
    hide Stuck, LeadsToCycle, ParentsFirst, NoDuplicates;
    if x in unplaced {
      assert x in ToSet(unplaced);
      StuckLeadsToCycle(ToSet(unplaced), edges, x);
    } else {
      PlacedLeadsNowhere(placed, edges, x);
    }
  }
}

/** The startup plan: mappings grouped by destination database, and why mappings do not disturb each other. */
module StartupPlans {
  import opened HelperPlan
  import opened SqlNames
  import opened Texts

  /** A destination; its contract is everything that connecting to it depends on. */
  datatype Target = Target(host: string, port: nat, database: string, contract: string)

  datatype MappingPlan = MappingPlan(id: string, target: Target, tables: seq<TableName>)

  datatype DatabaseKey = DatabaseKey(host: string, port: nat, database: string)

  datatype Group = Group(key: DatabaseKey, target: Target, mappings: seq<MappingPlan>)

  datatype PlanError =
    | InconsistentDestinationTarget(key: DatabaseKey, first: string, second: string)
    | OverlappingDestinationTable(key: DatabaseKey, name: string, first: string, second: string)

  datatype Result<T> = Ok(value: T) | Err(error: PlanError)

  function KeyOf(m: MappingPlan): DatabaseKey {
    DatabaseKey(m.target.host, m.target.port, m.target.database)
  }

  // ---- The order of the groups ----

  predicate KeyLess(a: DatabaseKey, b: DatabaseKey) {
    || TextLess(a.host, b.host)
    || (a.host == b.host && (a.port < b.port || (a.port == b.port && TextLess(a.database, b.database))))
  }

  lemma KeyTotal(a: DatabaseKey, b: DatabaseKey)
    ensures KeyLess(a, b) || KeyLess(b, a) || a == b
    ensures !(KeyLess(a, b) && KeyLess(b, a)) && !KeyLess(a, a)
  {
    TextTotal(a.host, b.host);
    TextTotal(a.database, b.database);
  }

  lemma KeyTransitive(a: DatabaseKey, b: DatabaseKey, c: DatabaseKey)
    requires KeyLess(a, b) && KeyLess(b, c)
    ensures KeyLess(a, c)
  {
    if TextLess(a.host, b.host) && TextLess(b.host, c.host) {
      TextTransitive(a.host, b.host, c.host);
    }
    if TextLess(a.database, b.database) && TextLess(b.database, c.database) {
      TextTransitive(a.database, b.database, c.database);
    }
  }

  ghost predicate Ascending(keys: seq<DatabaseKey>) {
    forall i, j :: 0 <= i < j < |keys| ==> KeyLess(keys[i], keys[j])
  }

  /** The entry of a key in an ordered map. */
  function InsertKey(keys: seq<DatabaseKey>, k: DatabaseKey): seq<DatabaseKey> {
    if keys == [] then [k]
    else if keys[0] == k then keys
    else if KeyLess(k, keys[0]) then [k] + keys
    else [keys[0]] + InsertKey(keys[1..], k)
  }

  lemma {:induction false} InsertKeyMember(keys: seq<DatabaseKey>, k: DatabaseKey, x: DatabaseKey)
    ensures x in InsertKey(keys, k) <==> x in keys || x == k
  {
    if keys != [] && keys[0] != k && !KeyLess(k, keys[0]) {
      InsertKeyMember(keys[1..], k, x);
    }
  }

  lemma {:induction false} InsertKeyAscending(keys: seq<DatabaseKey>, k: DatabaseKey)
    requires Ascending(keys)
    ensures Ascending(InsertKey(keys, k))
  {
    if keys != [] && keys[0] != k {
      KeyTotal(k, keys[0]);
      if KeyLess(k, keys[0]) {
        forall j | 0 <= j < |keys|
          ensures KeyLess(k, keys[j])
        {
          if j > 0 {
            KeyTransitive(k, keys[0], keys[j]);
          }
        }
      } else {
        var rest := InsertKey(keys[1..], k);
        InsertKeyAscending(keys[1..], k);
        forall j | 0 <= j < |rest|
          ensures KeyLess(keys[0], rest[j])
        {
          InsertKeyMember(keys[1..], k, rest[j]);
        }
      }
    }
  }

  // ---- One group ----

  /** The mappings of one database, in configured order. */
  function GroupOf(mappings: seq<MappingPlan>, k: DatabaseKey): seq<MappingPlan> {
    if mappings == [] then []
    else GroupOf(mappings[..|mappings| - 1], k) + if KeyOf(mappings[|mappings| - 1]) == k then [mappings[|mappings| - 1]] else []
  }

  function LabelsOf(tables: seq<TableName>): seq<string> {
    seq(|tables|, i requires 0 <= i < |tables| => Label(tables[i]))
  }

  /** The labels of all tables of a group. */
  function GroupLabels(mappings: seq<MappingPlan>): seq<string> {
    if mappings == [] then [] else GroupLabels(mappings[..|mappings| - 1]) + LabelsOf(mappings[|mappings| - 1].tables)
  }

  ghost predicate AllDifferent(labels: seq<string>) {
    forall i, j :: 0 <= i < j < |labels| ==> labels[i] != labels[j]
  }

  ghost predicate SameContract(mappings: seq<MappingPlan>) {
    forall i :: 0 <= i < |mappings| ==> mappings[i].target.contract == mappings[0].target.contract
  }

  ghost predicate Owns(mappings: seq<MappingPlan>, id: string, name: string) {
    exists m :: m in mappings && m.id == id && name in LabelsOf(m.tables)
  }

  /** Of all labels this is the first to be met a second time. */
  ghost predicate FirstTwice(labels: seq<string>, name: string) {
    exists j :: 0 <= j < |labels| && labels[j] == name && name in labels[..j] && AllDifferent(labels[..j])
  }

  /** Mapping n is the first with another contract than the first mapping. */
  ghost predicate FirstOther(mappings: seq<MappingPlan>, n: nat) {
    && n < |mappings| && mappings[n].target.contract != mappings[0].target.contract
    && SameContract(mappings[..n])
  }

  ghost predicate GroupResult(r: Result<Group>, k: DatabaseKey, mappings: seq<MappingPlan>)
    requires mappings != []
  {
    match r
    case Ok(group) => SameContract(mappings) && AllDifferent(GroupLabels(mappings)) && group == Group(k, mappings[0].target, mappings)
    case Err(InconsistentDestinationTarget(key, first, second)) =>
      key == k && first == mappings[0].id && exists n: nat :: FirstOther(mappings, n) && mappings[n].id == second
    case Err(OverlappingDestinationTable(key, name, first, second)) =>
      && key == k && SameContract(mappings) && FirstTwice(GroupLabels(mappings), name)
      && Owns(mappings, first, name) && Owns(mappings, second, name)
  }

  method NewGroup(k: DatabaseKey, mappings: seq<MappingPlan>) returns (r: Result<Group>)
    requires mappings != []
    ensures GroupResult(r, k, mappings)
    ensures r.Ok? <==> SameContract(mappings) && AllDifferent(GroupLabels(mappings))
  {
    var target := mappings[0].target;
    var i := 0;
    while i < |mappings|
      invariant 0 <= i <= |mappings|
      invariant forall j :: 0 <= j < i ==> mappings[j].target.contract == target.contract
    {
      if mappings[i].target.contract != target.contract {
        assert FirstOther(mappings, i);
        return Err(InconsistentDestinationTarget(k, mappings[0].id, mappings[i].id));
      }
      i := i + 1;
    }
    r := CheckOwners(k, mappings);
  }

  /** What table_owners holds: who owns each label met so far. */
  ghost predicate Tracks(owners: map<string, string>, labels: seq<string>, mappings: seq<MappingPlan>) {
    && AllDifferent(labels) && (forall l :: l in owners <==> l in labels)
    && forall l :: l in owners ==> Owns(mappings, owners[l], l)
  }

  method CheckOwners(k: DatabaseKey, mappings: seq<MappingPlan>) returns (r: Result<Group>)
    requires mappings != [] && SameContract(mappings)
    ensures GroupResult(r, k, mappings)
    ensures r.Ok? <==> AllDifferent(GroupLabels(mappings))
  {
    var owners: map<string, string> := map[];
    var i := 0;
    while i < |mappings|
      invariant 0 <= i <= |mappings|
      invariant Tracks(owners, GroupLabels(mappings[..i]), mappings)
    {
      var mapping := mappings[i];
      ghost var before, labels := GroupLabels(mappings[..i]), LabelsOf(mapping.tables);
      assert mappings[..i + 1][..i] == mappings[..i];
      assert before + labels[..0] == before;
      var j := 0;
      while j < |mapping.tables|
        invariant 0 <= j <= |mapping.tables|
        invariant Tracks(owners, before + labels[..j], mappings)
      {
        var name := Label(mapping.tables[j]);
        assert name == labels[j] && name in labels;
        if name in owners {
          FoundTwice(mappings, i, j, owners);
          return Err(OverlappingDestinationTable(k, name, owners[name], mapping.id));
        }
        TrackMore(owners, before + labels[..j], mappings, mapping, name);
        assert before + labels[..j] + [name] == before + labels[..j + 1];
        owners := owners[name := mapping.id];
        j := j + 1;
      }
      assert labels[..j] == labels;
      i := i + 1;
    }
    assert mappings[..i] == mappings;
    r := Ok(Group(k, mappings[0].target, mappings));
  }

  lemma TrackMore(owners: map<string, string>, labels: seq<string>, mappings: seq<MappingPlan>, m: MappingPlan, name: string)
    requires Tracks(owners, labels, mappings) && name !in owners && m in mappings && name in LabelsOf(m.tables)
    ensures Tracks(owners[name := m.id], labels + [name], mappings)
  {
    assert Owns(mappings, m.id, name);
    hide Owns;
  }

  lemma FoundTwice(mappings: seq<MappingPlan>, i: nat, j: nat, owners: map<string, string>)
    requires i < |mappings| && j < |mappings[i].tables|
    requires Tracks(owners, GroupLabels(mappings[..i]) + LabelsOf(mappings[i].tables)[..j], mappings)
    requires Label(mappings[i].tables[j]) in owners
    ensures var name := Label(mappings[i].tables[j]);
      && FirstTwice(GroupLabels(mappings), name) && !AllDifferent(GroupLabels(mappings))
      && Owns(mappings, owners[name], name) && Owns(mappings, mappings[i].id, name)
  {
    var name, labels := Label(mappings[i].tables[j]), LabelsOf(mappings[i].tables);
    var before, all := GroupLabels(mappings[..i]) + labels[..j], GroupLabels(mappings);
    assert name == labels[j] && name in labels && mappings[i] in mappings;
    LabelsPrefix(mappings, i);
    var p :| 0 <= p < |before| && before[p] == name;
    var q := |GroupLabels(mappings[..i])| + j;
    assert (GroupLabels(mappings[..i]) + labels)[..q] == before && (GroupLabels(mappings[..i]) + labels)[q] == name;
    assert all[..q] == before && all[p] == name && all[q] == name && p < q;
  }

  lemma {:induction false} LabelsPrefix(mappings: seq<MappingPlan>, i: nat)
    requires i < |mappings|
    ensures GroupLabels(mappings[..i]) + LabelsOf(mappings[i].tables) <= GroupLabels(mappings)
  {
    var n := |mappings| - 1;
    if i < n {
      LabelsPrefix(mappings[..n], i);
      assert mappings[..n][..i] == mappings[..i];
    }
  }

  // ---- RunnerStartupPlan::from_config ----

  function KeysOf(mappings: seq<MappingPlan>): seq<DatabaseKey> {
    if mappings == [] then [] else InsertKey(KeysOf(mappings[..|mappings| - 1]), KeyOf(mappings[|mappings| - 1]))
  }

  lemma {:induction false} KeysOfMember(mappings: seq<MappingPlan>, k: DatabaseKey)
    ensures k in KeysOf(mappings) <==> GroupOf(mappings, k) != []
    ensures Ascending(KeysOf(mappings))
  {
    if mappings != [] {
      var n := |mappings| - 1;
      KeysOfMember(mappings[..n], k);
      InsertKeyMember(KeysOf(mappings[..n]), KeyOf(mappings[n]), k);
      InsertKeyAscending(KeysOf(mappings[..n]), KeyOf(mappings[n]));
    }
  }

  ghost predicate GroupFails(mappings: seq<MappingPlan>, k: DatabaseKey) {
    !(SameContract(GroupOf(mappings, k)) && AllDifferent(GroupLabels(GroupOf(mappings, k))))
  }

  /** One group per destination database, in key order, each with all mappings of that database. */
  ghost predicate Partitions(groups: seq<Group>, mappings: seq<MappingPlan>) {
    && |groups| == |KeysOf(mappings)|
    && forall i :: 0 <= i < |groups| ==>
         && groups[i].key == KeysOf(mappings)[i] && groups[i].mappings == GroupOf(mappings, groups[i].key)
         && groups[i].mappings != [] && groups[i].target == groups[i].mappings[0].target
         && !GroupFails(mappings, groups[i].key)
  }

  /** The first group in key order that fails. */
  ghost predicate FirstFailure(k: DatabaseKey, mappings: seq<MappingPlan>, keys: seq<DatabaseKey>) {
    exists n :: 0 <= n < |keys| && keys[n] == k && GroupFails(mappings, k)
                && forall i :: 0 <= i < n ==> !GroupFails(mappings, keys[i])
  }

  method FromConfigs(mappings: seq<MappingPlan>) returns (r: Result<seq<Group>>)
    ensures r.Ok? <==> forall k :: k in KeysOf(mappings) ==> !GroupFails(mappings, k)
    ensures r.Ok? ==> Partitions(r.value, mappings)
    ensures r.Err? ==> FirstFailure(r.error.key, mappings, KeysOf(mappings))
  {
    var keys: seq<DatabaseKey> := [];
    var grouped: map<DatabaseKey, seq<MappingPlan>> := map[];
    var i := 0;
    while i < |mappings|
      invariant 0 <= i <= |mappings| && keys == KeysOf(mappings[..i])
      invariant forall k :: k in grouped <==> GroupOf(mappings[..i], k) != []
      invariant forall k :: k in grouped ==> grouped[k] == GroupOf(mappings[..i], k)
    {
      var key := KeyOf(mappings[i]);
      assert mappings[..i + 1][..i] == mappings[..i];
      grouped := grouped[key := (if key in grouped then grouped[key] else []) + [mappings[i]]];
      keys := InsertKey(keys, key);
      i := i + 1;
    }
    assert mappings[..i] == mappings;
    r := NewGroups(mappings, keys, grouped);
    if r.Ok? {
      forall k | k in keys
        ensures !GroupFails(mappings, k)
      {
        var n :| 0 <= n < |keys| && keys[n] == k;
        assert r.value[n].key == k;
      }
    }
  }

  method NewGroups(mappings: seq<MappingPlan>, keys: seq<DatabaseKey>, grouped: map<DatabaseKey, seq<MappingPlan>>)
    returns (r: Result<seq<Group>>)
    requires keys == KeysOf(mappings) && forall k :: k in grouped <==> GroupOf(mappings, k) != []
    requires forall k :: k in grouped ==> grouped[k] == GroupOf(mappings, k)
    ensures r.Ok? ==> Partitions(r.value, mappings)
    ensures r.Err? ==> FirstFailure(r.error.key, mappings, keys)
  {
    hide GroupOf, KeysOf, SameContract, AllDifferent, GroupLabels, Ascending;
    var groups: seq<Group> := [];
    var i := 0;
    while i < |keys|
      invariant 0 <= i <= |keys| && |groups| == i
      invariant forall j :: 0 <= j < i ==> groups[j] == Group(keys[j], GroupTarget(mappings, keys[j]), GroupOf(mappings, keys[j]))
      invariant forall j :: 0 <= j < i ==> GroupOf(mappings, keys[j]) != [] && !GroupFails(mappings, keys[j])
    {
      KeysOfMember(mappings, keys[i]);
      assert keys[i] in grouped;
      var group := NewGroup(keys[i], grouped[keys[i]]);
      if group.Err? {
        return Err(group.error);
      }
      groups := groups + [group.value];
      i := i + 1;
    }
    r := Ok(groups);
  }

  function GroupTarget(mappings: seq<MappingPlan>, k: DatabaseKey): Target {
    if GroupOf(mappings, k) == [] then Target("", 0, "", "") else GroupOf(mappings, k)[0].target
  }

  // ---- What a successful plan means for the mappings ----

  /** Table number a of mapping i and table number b of mapping j have the same label. */
  predicate SameLabel(mappings: seq<MappingPlan>, i: nat, a: nat, j: nat, b: nat)
    requires i < |mappings| && j < |mappings|
  {
    a < |mappings[i].tables| && b < |mappings[j].tables| && Label(mappings[i].tables[a]) == Label(mappings[j].tables[b])
  }

  lemma {:induction false} LabelPosition(mappings: seq<MappingPlan>, i: nat, a: nat) returns (p: nat)
    requires i < |mappings| && a < |mappings[i].tables|
    ensures p < |GroupLabels(mappings)| && GroupLabels(mappings)[p] == Label(mappings[i].tables[a])
    ensures |GroupLabels(mappings[..i])| == p - a
  {
    p := |GroupLabels(mappings[..i])| + a;
    LabelsPrefix(mappings, i);
    var part := GroupLabels(mappings[..i]) + LabelsOf(mappings[i].tables);
    assert part[p] == LabelsOf(mappings[i].tables)[a];
    assert part[p] == GroupLabels(mappings)[p];
  }

  lemma {:induction false} LabelsGrow(mappings: seq<MappingPlan>, i: nat, j: nat)
    requires i < j <= |mappings|
    ensures |GroupLabels(mappings[..i])| + |mappings[i].tables| <= |GroupLabels(mappings[..j])|
  {
    assert mappings[..j][..j - 1] == mappings[..j - 1];
    if i < j - 1 {
      LabelsGrow(mappings, i, j - 1);
    }
  }

  /** No two mappings of a group share a table, and no mapping has a table twice. */
  lemma TablesOwnedOnce(mappings: seq<MappingPlan>, i: nat, a: nat, j: nat, b: nat)
    requires AllDifferent(GroupLabels(mappings)) && i < |mappings| && j < |mappings|
    requires SameLabel(mappings, i, a, j, b)
    ensures i == j && a == b
  {
    var p := LabelPosition(mappings, i, a);
    var q := LabelPosition(mappings, j, b);
    assert GroupLabels(mappings)[p] == GroupLabels(mappings)[q];
    if i < j {
      LabelsGrow(mappings, i, j);
    } else if j < i {
      LabelsGrow(mappings, j, i);
    }
  }

  /** An overlap that is reported is a real one: configured names with one label are one table. */
  lemma OverlapIsReal(values: seq<string>, i: nat, j: nat)
    requires i < |values| && j < |values| && FromConfig(values[i]).Name? && FromConfig(values[j]).Name?
    ensures Label(FromConfig(values[i]).name) == Label(FromConfig(values[j]).name) <==> FromConfig(values[i]) == FromConfig(values[j])
  {
    ConfiguredSchema(values[i]);
    ConfiguredSchema(values[j]);
    if Label(FromConfig(values[i]).name) == Label(FromConfig(values[j]).name) {
      LabelsDiffer(FromConfig(values[i]).name, FromConfig(values[j]).name);
    }
  }
}

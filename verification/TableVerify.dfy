/** The comparison of two table definitions: which columns are compared, and whether rows can be at all. */
module TableVerify {
  import opened Options
  import opened Keys

  datatype Column = Column(name: string, notNull: bool, oid: nat, collation: Option<string>)

  /** What types and collations can be compared. */
  datatype Rules = Rules(comparable: (nat, nat) -> bool, isString: nat -> bool, sameCollation: (Option<string>, Option<string>) -> bool)

  datatype Mismatch =
    | MissingPrimaryKey
    | ExtraneousColumn(name: string)
    | NotNullMismatch(name: string)
    | TypeMismatch(name: string)
    | MissingColumn(name: string)
    | CollationMismatch(name: string)
    | PrimaryKeyMismatch

  datatype Result = Result(rowVerifiable: bool, columns: seq<string>, primaryKey: seq<string>, mismatches: set<Mismatch>)

  ghost predicate DistinctNames(names: seq<string>) {
    forall i, j :: 0 <= i < j < |names| ==> names[i] != names[j]
  }

  function NamesOf(columns: seq<Column>): seq<string> {
    seq(|columns|, i requires 0 <= i < |columns| => columns[i].name)
  }

  function ColumnMap(columns: seq<Column>): map<string, Column> {
    if columns == [] then map[] else ColumnMap(columns[..|columns| - 1])[columns[|columns| - 1].name := columns[|columns| - 1]]
  }

  lemma {:induction false} ColumnMapNames(columns: seq<Column>, name: string)
    ensures name in ColumnMap(columns) <==> name in NamesOf(columns)
    ensures name in ColumnMap(columns) ==> ColumnMap(columns)[name].name == name
  {
    if columns != [] {
      var n := |columns| - 1;
      ColumnMapNames(columns[..n], name);
      assert NamesOf(columns) == NamesOf(columns[..n]) + [columns[n].name];
    }
  }

  /** Both tables have the column, with comparable types. */
  predicate Comparable(name: string, truth: map<string, Column>, target: map<string, Column>, rules: Rules) {
    name in truth && name in target && rules.comparable(truth[name].oid, target[name].oid)
  }

  // ---- The columns ----

  /** What comparing a target column of this name adds to the findings. */
  function ColumnFindings(name: string, truth: map<string, Column>, target: map<string, Column>, rules: Rules): set<Mismatch>
    requires name in target
  {
    if name !in truth then {ExtraneousColumn(name)}
    else (if truth[name].notNull != target[name].notNull then {NotNullMismatch(name)} else {})
         + if rules.comparable(truth[name].oid, target[name].oid) then {} else {TypeMismatch(name)}
  }

  method CompareColumns(truth: map<string, Column>, targetCols: seq<Column>, rules: Rules)
    returns (comparable: set<string>, unseen: set<string>, mismatches: set<Mismatch>)
    requires DistinctNames(NamesOf(targetCols))
    ensures forall n :: n in unseen <==> n in truth && n !in ColumnMap(targetCols)
    ensures forall n :: n in comparable <==> n in truth && (n in ColumnMap(targetCols) ==> Comparable(n, truth, ColumnMap(targetCols), rules))
    ensures forall m :: m in mismatches <==>
      exists n :: n in ColumnMap(targetCols) && m in ColumnFindings(n, truth, ColumnMap(targetCols), rules)
  {
    comparable, unseen, mismatches := truth.Keys, truth.Keys, {};
    var i := 0;
    while i < |targetCols|
      invariant 0 <= i <= |targetCols|
      invariant forall n :: n in unseen <==> n in truth && n !in ColumnMap(targetCols[..i])
      invariant forall n :: n in comparable <==>
        n in truth && (n in ColumnMap(targetCols[..i]) ==> Comparable(n, truth, ColumnMap(targetCols[..i]), rules))
      invariant forall m :: m in mismatches <==>
        exists n :: n in ColumnMap(targetCols[..i]) && m in ColumnFindings(n, truth, ColumnMap(targetCols[..i]), rules)
    {
      var targetCol := targetCols[i];
      ghost var before, after := ColumnMap(targetCols[..i]), ColumnMap(targetCols[..i + 1]);
      ghost var found := mismatches;
      MapSnoc(targetCols, i);
      FindingsSnoc(mismatches, truth, before, targetCol, rules);
      if targetCol.name !in truth {
        mismatches := mismatches + {ExtraneousColumn(targetCol.name)};
      } else {
        var sourceCol := truth[targetCol.name];
        unseen := unseen - {targetCol.name};
        if sourceCol.notNull != targetCol.notNull {
          mismatches := mismatches + {NotNullMismatch(targetCol.name)};
        }
        if !rules.comparable(sourceCol.oid, targetCol.oid) {
          mismatches := mismatches + {TypeMismatch(targetCol.name)};
          comparable := comparable - {targetCol.name};
        }
      }
      assert mismatches == found + ColumnFindings(targetCol.name, truth, after, rules);
      i := i + 1;
    }
    assert targetCols[..i] == targetCols;
  }

  lemma MapSnoc(columns: seq<Column>, i: nat)
    requires i < |columns| && DistinctNames(NamesOf(columns))
    ensures ColumnMap(columns[..i + 1]) == ColumnMap(columns[..i])[columns[i].name := columns[i]]
    ensures columns[i].name !in ColumnMap(columns[..i])
  {
    assert columns[..i + 1][..i] == columns[..i];
    ColumnMapNames(columns[..i], columns[i].name);
    forall k | 0 <= k < i
      ensures NamesOf(columns[..i])[k] != columns[i].name
    {
      assert NamesOf(columns)[k] != NamesOf(columns)[i];
    }
  }

  lemma FindingsSnoc(mismatches: set<Mismatch>, truth: map<string, Column>, before: map<string, Column>, c: Column, rules: Rules)
    requires c.name !in before
    requires forall m :: m in mismatches <==> exists n :: n in before && m in ColumnFindings(n, truth, before, rules)
    ensures var after := before[c.name := c];
      forall m :: m in mismatches + ColumnFindings(c.name, truth, after, rules) <==>
        exists n :: n in after && m in ColumnFindings(n, truth, after, rules)
  {
    var after := before[c.name := c];
    forall n | n in before
      ensures ColumnFindings(n, truth, before, rules) == ColumnFindings(n, truth, after, rules)
    {
    }
    forall m
      ensures m in mismatches + ColumnFindings(c.name, truth, after, rules) <==>
        exists n :: n in after && m in ColumnFindings(n, truth, after, rules)
    {
      if m in mismatches {
        var n :| n in before && m in ColumnFindings(n, truth, before, rules);
        assert n in after && m in ColumnFindings(n, truth, after, rules);
      }
      if n :| n in after && m in ColumnFindings(n, truth, after, rules) {
        if n != c.name {
          assert n in before && m in ColumnFindings(n, truth, before, rules);
        }
      }
    }
  }

  /** Columns that the target does not have at all. */
  method MissingColumns(unseen: set<string>, comparable0: set<string>, mismatches0: set<Mismatch>)
    returns (comparable: set<string>, mismatches: set<Mismatch>)
    ensures comparable == comparable0 - unseen
    ensures forall m :: m in mismatches <==> m in mismatches0 || (m.MissingColumn? && m.name in unseen)
  {
    comparable, mismatches := comparable0, mismatches0;
    var left := unseen;
    while left != {}
      invariant left <= unseen && comparable == comparable0 - (unseen - left)
      invariant forall m :: m in mismatches <==> m in mismatches0 || (m.MissingColumn? && m.name in unseen - left)
      decreases |left|
    {
      var name :| name in left;
      mismatches := mismatches + {MissingColumn(name)};
      comparable := comparable - {name};
      left := left - {name};
    }
  }

  lemma FindingKinds(name: string, truth: map<string, Column>, target: map<string, Column>, rules: Rules, m: Mismatch)
    requires name in target && m in ColumnFindings(name, truth, target, rules)
    ensures m.ExtraneousColumn? || m.NotNullMismatch? || m.TypeMismatch?
    ensures m.ExtraneousColumn? ==> m.name == name && name !in truth
  {
  }

  /** All columns compared: the comparable ones, and what is wrong with the others. */
  method CompareAllColumns(truthCols: seq<Column>, targetCols: seq<Column>, rules: Rules)
    returns (comparable: set<string>, mismatches: set<Mismatch>)
    requires DistinctNames(NamesOf(targetCols))
    ensures forall n :: n in comparable <==> Comparable(n, ColumnMap(truthCols), ColumnMap(targetCols), rules)
    ensures forall n :: MissingColumn(n) in mismatches <==> n in ColumnMap(truthCols) && n !in ColumnMap(targetCols)
    ensures forall n :: ExtraneousColumn(n) in mismatches <==> n in ColumnMap(targetCols) && n !in ColumnMap(truthCols)
    ensures MissingPrimaryKey !in mismatches && PrimaryKeyMismatch !in mismatches && forall n :: CollationMismatch(n) !in mismatches
  {
    var truth := ColumnMap(truthCols);
    ghost var target := ColumnMap(targetCols);
    var unseen, found;
    comparable, unseen, found := CompareColumns(truth, targetCols, rules);
    comparable, mismatches := MissingColumns(unseen, comparable, found);
    forall m | m in found
      ensures m.ExtraneousColumn? || m.NotNullMismatch? || m.TypeMismatch?
      ensures m.ExtraneousColumn? ==> m.name in target && m.name !in truth
    {
      var n :| n in target && m in ColumnFindings(n, truth, target, rules);
      FindingKinds(n, truth, target, rules, m);
    }
    forall n | n in target && n !in truth
      ensures ExtraneousColumn(n) in found
    {
      assert ExtraneousColumn(n) in ColumnFindings(n, truth, target, rules);
    }
  }

  // ---- The primary key ----

  /** Both sides are strings, and their collations do not agree. */
  predicate CollationsClash(name: string, truth: map<string, Column>, target: map<string, Column>, rules: Rules)
    requires name in truth && name in target
  {
    rules.isString(truth[name].oid) && rules.isString(target[name].oid)
    && !rules.sameCollation(truth[name].collation, target[name].collation)
  }

  /** Both keys list the same columns in the same order, all of them comparable. */
  ghost predicate SameKey(truthPK: seq<string>, targetPK: seq<string>, comparable: set<string>) {
    targetPK == truthPK && forall i :: 0 <= i < |truthPK| ==> truthPK[i] in comparable
  }

  method ComparePrimaryKeys(
    truthPK: seq<string>, targetPK: seq<string>, comparable: set<string>,
    truth: map<string, Column>, target: map<string, Column>, rules: Rules)
    returns (same: bool, clashes: set<Mismatch>)
    requires comparable <= truth.Keys && comparable <= target.Keys
    ensures same <==> SameKey(truthPK, targetPK, comparable)
    ensures same ==> forall m :: m in clashes <==>
      m.CollationMismatch? && m.name in truthPK && m.name in truth && m.name in target && CollationsClash(m.name, truth, target, rules)
    ensures forall m :: m in clashes ==> m.CollationMismatch?
  {
    same, clashes := |targetPK| == |truthPK|, {};
    if same {
      var i := 0;
      while i < |targetPK|
        invariant 0 <= i <= |targetPK| == |truthPK|
        invariant same ==> targetPK[..i] == truthPK[..i] && forall k :: 0 <= k < i ==> truthPK[k] in comparable
        invariant same ==> forall m :: m in clashes <==>
          m.CollationMismatch? && m.name in truthPK[..i] && m.name in truth && m.name in target && CollationsClash(m.name, truth, target, rules)
        invariant !same ==> !SameKey(truthPK, targetPK, comparable)
        invariant forall m :: m in clashes ==> m.CollationMismatch?
      {
        var col := targetPK[i];
        if targetPK[i] != truthPK[i] {
          same := false;
          break;
        }
        if targetPK[i] !in comparable {
          same := false;
          break;
        }
        if rules.isString(truth[col].oid) && rules.isString(target[col].oid) {
          if !rules.sameCollation(truth[col].collation, target[col].collation) {
            clashes := clashes + {CollationMismatch(col)};
          }
        }
        assert truthPK[..i + 1] == truthPK[..i] + [col] && targetPK[..i + 1] == targetPK[..i] + [col];
        i := i + 1;
      }
      if same {
        assert truthPK[..i] == truthPK && targetPK[..i] == targetPK;
      }
    }
  }

  // ---- The columns to compare, key columns first ----

  function Kept(names: seq<string>, comparable: set<string>): seq<string> {
    if names == [] then []
    else Kept(names[..|names| - 1], comparable) + if names[|names| - 1] in comparable then [names[|names| - 1]] else []
  }

  function KeyFirst(truthPK: seq<string>, names: seq<string>, comparable: set<string>): seq<string> {
    Kept(truthPK, comparable) + Kept(names, comparable - (set n | n in truthPK))
  }

  method ListColumns(truthPK: seq<string>, truthCols: seq<Column>, comparable0: set<string>) returns (columns: seq<string>)
    requires DistinctNames(truthPK)
    ensures columns == KeyFirst(truthPK, NamesOf(truthCols), comparable0)
  {
    columns := [];
    var comparable := comparable0;
    var i := 0;
    while i < |truthPK|
      invariant 0 <= i <= |truthPK| && columns == Kept(truthPK[..i], comparable0)
      invariant comparable == comparable0 - (set n | n in truthPK[..i])
    {
      assert truthPK[..i + 1][..i] == truthPK[..i];
      assert forall k :: 0 <= k < i ==> truthPK[..i][k] != truthPK[i];
      assert forall n :: n in truthPK[..i + 1] <==> n in truthPK[..i] || n == truthPK[i];
      if truthPK[i] in comparable {
        columns := columns + [truthPK[i]];
        comparable := comparable - {truthPK[i]};
      }
      i := i + 1;
    }
    assert truthPK[..i] == truthPK;
    ghost var key := columns;
    var names := NamesOf(truthCols);
    i := 0;
    while i < |truthCols|
      invariant 0 <= i <= |truthCols| == |names| && columns == key + Kept(names[..i], comparable)
    {
      assert names[..i + 1][..i] == names[..i];
      if truthCols[i].name in comparable {
        columns := columns + [truthCols[i].name];
      }
      i := i + 1;
    }
    assert names[..i] == names;
  }

  lemma {:induction false} KeptMember(names: seq<string>, comparable: set<string>, n: string)
    requires DistinctNames(names)
    ensures n in Kept(names, comparable) <==> n in names && n in comparable
    ensures DistinctNames(Kept(names, comparable))
  {
    if names != [] {
      var last := |names| - 1;
      assert names == names[..last] + [names[last]];
      KeptMember(names[..last], comparable, n);
      KeptMember(names[..last], comparable, names[last]);
    }
  }

  lemma {:induction false} KeptAll(names: seq<string>, comparable: set<string>)
    requires forall i :: 0 <= i < |names| ==> names[i] in comparable
    ensures Kept(names, comparable) == names
  {
    if names != [] {
      KeptAll(names[..|names| - 1], comparable);
    }
  }

  /** The list has every comparable column of the table exactly once. */
  lemma KeyFirstMeans(truthPK: seq<string>, names: seq<string>, comparable: set<string>, n: string)
    requires DistinctNames(truthPK) && DistinctNames(names) && (forall k :: k in truthPK ==> k in names)
    ensures n in KeyFirst(truthPK, names, comparable) <==> n in names && n in comparable
    ensures DistinctNames(KeyFirst(truthPK, names, comparable))
  {
    var others := comparable - (set k | k in truthPK);
    var first, second := Kept(truthPK, comparable), Kept(names, others);
    KeptMember(truthPK, comparable, n);
    KeptMember(names, others, n);
    forall i, j | 0 <= i < |first| && 0 <= j < |second|
      ensures first[i] != second[j]
    {
      KeptMember(truthPK, comparable, first[i]);
      KeptMember(names, others, second[j]);
    }
  }

  // ---- verifyTable ----

  ghost predicate WellDefined(primaryKey: seq<string>, columns: seq<Column>) {
    DistinctNames(NamesOf(columns)) && DistinctNames(primaryKey) && forall n :: n in primaryKey ==> n in NamesOf(columns)
  }

  /** Rows can be verified exactly if the truth has a primary key, the target has the same one, all its columns
      are comparable, and no string column of it has clashing collations. */
  ghost predicate CanVerifyRows(truthPK: seq<string>, targetPK: seq<string>, truth: map<string, Column>, target: map<string, Column>, rules: Rules) {
    && truthPK != [] && targetPK == truthPK
    && forall n :: n in truthPK ==> Comparable(n, truth, target, rules) && !CollationsClash(n, truth, target, rules)
  }

  method VerifyTable(truthPK: seq<string>, targetPK: seq<string>, truthCols: seq<Column>, targetCols: seq<Column>, rules: Rules)
    returns (r: Result)
    requires WellDefined(truthPK, truthCols) && WellDefined(targetPK, targetCols)
    ensures var truth, target := ColumnMap(truthCols), ColumnMap(targetCols);
      && r.primaryKey == truthPK
      && (r.rowVerifiable <==> CanVerifyRows(truthPK, targetPK, truth, target, rules))
      && (forall n :: n in r.columns <==> Comparable(n, truth, target, rules)) && DistinctNames(r.columns)
      && (r.rowVerifiable ==> |truthPK| <= |r.columns| && r.columns[..|truthPK|] == truthPK)
    ensures MissingPrimaryKey in r.mismatches <==> truthPK == []
    ensures PrimaryKeyMismatch in r.mismatches <==>
      truthPK != [] && !(targetPK == truthPK && forall n :: n in truthPK ==> Comparable(n, ColumnMap(truthCols), ColumnMap(targetCols), rules))
    ensures forall n :: MissingColumn(n) in r.mismatches <==> n in ColumnMap(truthCols) && n !in ColumnMap(targetCols)
    ensures forall n :: ExtraneousColumn(n) in r.mismatches <==> n in ColumnMap(targetCols) && n !in ColumnMap(truthCols)
  {
    var truth, target := ColumnMap(truthCols), ColumnMap(targetCols);
    var comparable, mismatches := CompareAllColumns(truthCols, targetCols, rules);
    hide ColumnMap, KeyFirst, CollationsClash;
    if |truthPK| == 0 {
      mismatches := mismatches + {MissingPrimaryKey};
    }
    var currPKSame, clashes := ComparePrimaryKeys(truthPK, targetPK, comparable, truth, target, rules);
    mismatches := mismatches + clashes;
    var pkSame := true;
    if !currPKSame && |truthPK| > 0 {
      pkSame := false;
      mismatches := mismatches + {PrimaryKeyMismatch};
    }
    var columns := ListColumns(truthPK, truthCols, comparable);
    ColumnsMean(truthPK, truthCols, comparable);
    KeyVerifiable(truthPK, targetPK, comparable, truth, target, rules, currPKSame, clashes);
    r := Result(pkSame && |truthPK| > 0 && clashes == {}, columns, truthPK, mismatches);
  }

  lemma ColumnsMean(truthPK: seq<string>, truthCols: seq<Column>, comparable: set<string>)
    requires WellDefined(truthPK, truthCols) && forall n :: n in comparable ==> n in ColumnMap(truthCols)
    ensures var columns := KeyFirst(truthPK, NamesOf(truthCols), comparable);
      && (forall n :: n in columns <==> n in comparable) && DistinctNames(columns)
      && ((forall n :: n in truthPK ==> n in comparable) ==> |truthPK| <= |columns| && columns[..|truthPK|] == truthPK)
  {
    var columns := KeyFirst(truthPK, NamesOf(truthCols), comparable);
    forall n
      ensures n in columns <==> n in comparable
      ensures DistinctNames(columns)
    {
      KeyFirstMeans(truthPK, NamesOf(truthCols), comparable, n);
      ColumnMapNames(truthCols, n);
    }
    if forall n :: n in truthPK ==> n in comparable {
      KeptAll(truthPK, comparable);
    }
  }

  lemma KeyVerifiable(
    truthPK: seq<string>, targetPK: seq<string>, comparable: set<string>, truth: map<string, Column>, target: map<string, Column>,
    rules: Rules, same: bool, clashes: set<Mismatch>)
    requires forall n :: n in comparable <==> Comparable(n, truth, target, rules)
    requires same <==> SameKey(truthPK, targetPK, comparable)
    requires same ==> forall m :: m in clashes <==>
      m.CollationMismatch? && m.name in truthPK && m.name in truth && m.name in target && CollationsClash(m.name, truth, target, rules)
    ensures same <==> targetPK == truthPK && forall n :: n in truthPK ==> Comparable(n, truth, target, rules)
    ensures same && truthPK != [] && clashes == {} <==> CanVerifyRows(truthPK, targetPK, truth, target, rules)
  {
    if same && clashes == {} {
      forall n | n in truthPK
        ensures Comparable(n, truth, target, rules) && !CollationsClash(n, truth, target, rules)
      {
        assert n in comparable;
        assert CollationMismatch(n) !in clashes;
      }
    }
  }

  // ---- Why paging by the leading columns is right ----

  /** A row of the table as a scan selects it. */
  function Projected(row: map<string, Datum>, columns: seq<string>): Row
    requires forall c :: c in columns ==> c in row
  {
    seq(|columns|, i requires 0 <= i < |columns| => row[columns[i]])
  }

  /** The rows of a row-verifiable table, strictly ordered by primary key and selected in the listed columns, are
      strictly ordered by their leading columns: what scans, merges and shards compare is the primary key. */
  lemma ProjectedSorted(rows: seq<map<string, Datum>>, columns: seq<string>, primaryKey: seq<string>)
    requires |primaryKey| <= |columns| && columns[..|primaryKey|] == primaryKey
    requires forall i, c :: 0 <= i < |rows| && c in columns ==> c in rows[i]
    requires forall c :: c in primaryKey ==> c in columns
    requires forall i, j :: 0 <= i < j < |rows| ==> KeyLess(Projected(rows[i], primaryKey), Projected(rows[j], primaryKey))
    ensures SortedRows(seq(|rows|, i requires 0 <= i < |rows| => Projected(rows[i], columns)), |primaryKey|)
  {
    var projected := seq(|rows|, i requires 0 <= i < |rows| => Projected(rows[i], columns));
    forall i | 0 <= i < |rows|
      ensures projected[i][..|primaryKey|] == Projected(rows[i], primaryKey)
    {
      forall k | 0 <= k < |primaryKey|
        ensures projected[i][k] == Projected(rows[i], primaryKey)[k]
      {
        assert columns[..|primaryKey|][k] == primaryKey[k];
      }
    }
  }

  /** Were the key not first, paging would lose rows: ordered by key column b, these two rows are not ordered by
      their leading column a. */
  lemma KeyMustComeFirst()
    ensures var rows := [map["a" := DInt(2), "b" := DInt(1)], map["a" := DInt(1), "b" := DInt(2)]];
      && KeyLess(Projected(rows[0], ["b"]), Projected(rows[1], ["b"]))
      && !SortedRows([Projected(rows[0], ["a", "b"]), Projected(rows[1], ["a", "b"])], 1)
  {
    var rows := [map["a" := DInt(2), "b" := DInt(1)], map["a" := DInt(1), "b" := DInt(2)]];
    var p, q := Projected(rows[0], ["a", "b"]), Projected(rows[1], ["a", "b"]);
    assert p[..1] == [DInt(2)] && q[..1] == [DInt(1)];
    assert !KeyLess(p[..1], q[..1]);
    assert [p, q][0] == p && [p, q][1] == q;
  }
}

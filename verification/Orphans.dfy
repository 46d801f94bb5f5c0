/** What a pass does to a child whose parent the helper tables no longer have, for every ON DELETE action. */
module Orphans {
  import opened HelperPlan
  import opened Tables
  import opened Deletes
  import opened Reconcile

  const PARENTS := TableName("public", "parents")
  const CHILDREN := TableName("public", "children")

  function ParentAndChild(action: ForeignKeyAction): ValidatedSchema {
    map[
      PARENTS := TableSchema(["id"], {}, {}, ["id"], []),
      CHILDREN := TableSchema(["id", "parent"], {"parent"}, {}, ["id"], [ForeignKey(["parent"], PARENTS, ["id"], action)])
    ]
  }

  const PARENT_ROW: Row := map["id" := Val(1)]
  const CHILD_ROW: Row := map["id" := Val(7), "parent" := Val(1)]

  const FAMILY: Database := map[PARENTS := map[[Val(1)] := PARENT_ROW], CHILDREN := map[[Val(7)] := CHILD_ROW]]
  const ORPHAN: Database := map[PARENTS := map[], CHILDREN := map[[Val(7)] := CHILD_ROW]]
  const FAMILY_ORDER := ReconcileOrder([PARENTS, CHILDREN], [CHILDREN, PARENTS])

  lemma FamilyConsistent(action: ForeignKeyAction)
    ensures Consistent(FAMILY, ParentAndChild(action))
  {
    var fk := ForeignKey(["parent"], PARENTS, ["id"], action);
    assert Matches(CHILD_ROW, fk, PARENT_ROW);
    assert Referenced(CHILD_ROW, fk, FAMILY[PARENTS]) by {
      assert [Val(1)] in FAMILY[PARENTS];
    }
  }

  lemma ChildUpserted(action: ForeignKeyAction)
    ensures Upserted(FAMILY[CHILDREN], ORPHAN[CHILDREN], ParentAndChild(action)[CHILDREN]) == FAMILY[CHILDREN]
  {
    var s := ParentAndChild(action)[CHILDREN];
    assert Writable(s) == {"id", "parent"};
    var written := Narrowed(CHILD_ROW, Writable(s));
    assert CHILD_ROW + (written - (set c | c in s.primaryKey)) == CHILD_ROW;
  }

  lemma FamilyUpserted(action: ForeignKeyAction)
    ensures ApplyAll(FAMILY, ORPHAN, ParentAndChild(action), Upsert, FAMILY_ORDER.upsertOrder) == Done(FAMILY)
  {
    var schema := ParentAndChild(action);
    FamilyConsistent(action);
    ChildUpserted(action);
    assert Upserted(FAMILY[PARENTS], ORPHAN[PARENTS], schema[PARENTS]) == FAMILY[PARENTS];
    assert FAMILY[PARENTS := FAMILY[PARENTS]] == FAMILY == FAMILY[CHILDREN := FAMILY[CHILDREN]];
    hide Upserted, Consistent;
    var tables := FAMILY_ORDER.upsertOrder;
    assert tables[..1] == [PARENTS] && tables[..1][..0] == [];
    assert ApplyAll(FAMILY, ORPHAN, schema, Upsert, tables[..1]) == Done(FAMILY);
  }

  lemma ChildrenKept(action: ForeignKeyAction)
    ensures ApplyDelete(FAMILY, ORPHAN, ParentAndChild(action), CHILDREN) == Done(FAMILY)
  {
    var schema := ParentAndChild(action);
    assert Surplus(FAMILY, ORPHAN, CHILDREN) == {};
    PlainDelete(FAMILY, ORPHAN, schema, CHILDREN);
    assert Deleted(FAMILY[CHILDREN], ORPHAN[CHILDREN]) == FAMILY[CHILDREN];
  }

  /** The parent's delete reaches the child by its one foreign key; nothing references the child. */
  lemma FamilyReferences(action: ForeignKeyAction, gone: set<RowId>)
    requires (PARENTS, [Val(1)]) in gone
    ensures References(FAMILY, ParentAndChild(action), (CHILDREN, [Val(7)]), 0, gone)
    ensures AllRows(FAMILY) == {(PARENTS, [Val(1)]), (CHILDREN, [Val(7)])}
  {
    var fk := ForeignKey(["parent"], PARENTS, ["id"], action);
    assert Matches(CHILD_ROW, fk, PARENT_ROW);
    assert [Val(1)] in FAMILY[PARENTS];
    forall x | x in AllRows(FAMILY)
      ensures x == (PARENTS, [Val(1)]) || x == (CHILDREN, [Val(7)])
    {
      assert Has(FAMILY, x);
    }
  }

  const PARENT_ID: RowId := (PARENTS, [Val(1)])
  const CHILD_ID: RowId := (CHILDREN, [Val(7)])

  /** With ON DELETE CASCADE the child goes, too; with any other action only the parent does. */
  lemma FamilyGone(action: ForeignKeyAction)
    ensures Cascaded(FAMILY, ParentAndChild(action), Surplus(FAMILY, ORPHAN, PARENTS))
      == if action == Cascade then {PARENT_ID, CHILD_ID} else {PARENT_ID}
  {
    var schema, gone := ParentAndChild(action), Surplus(FAMILY, ORPHAN, PARENTS);
    assert gone == {PARENT_ID};
    var all := Cascaded(FAMILY, schema, gone);
    FamilyReferences(action, all);
    hide References, AllRows;
    if action == Cascade {
      assert CascadesTo(FAMILY, schema, CHILD_ID, all);
      assert Has(FAMILY, CHILD_ID);
    } else {
      CascadedIsLeast(FAMILY, schema, gone, gone);
    }
  }

  lemma EverythingGoes(db: Database, helper: Database, schema: ValidatedSchema, t: TableName)
    requires db.Keys <= schema.Keys && t in db && t in helper
    requires AllRows(db) <= Cascaded(db, schema, Surplus(db, helper, t))
    ensures var r := DeleteStatement(db, helper, schema, t);
      r.Some? && r.value.Keys == db.Keys && forall u :: u in db ==> r.value[u] == map[]
  {
    hide NullColumns, Cascaded, Objects, AllRows, Surplus;
    var gone := Cascaded(db, schema, Surplus(db, helper, t));
    var after := Without(db, schema, gone);
    forall u, k | u in db && k in db[u]
      ensures (u, k) in gone
    {
      assert (u, k) in AllRows(db);
    }
    assert forall u :: u in after ==> after[u] == map[];
  }

  lemma CascadeTakesBoth()
    ensures ApplyDelete(FAMILY, ORPHAN, ParentAndChild(Cascade), PARENTS) == Done(map[PARENTS := map[], CHILDREN := map[]])
  {
    var schema := ParentAndChild(Cascade);
    AllCascaded();
    hide References, Cascaded, AllRows, Surplus, DeleteStatement;
    EverythingGoes(FAMILY, ORPHAN, schema, PARENTS);
    hide PARENT_ROW, CHILD_ROW;
    EmptyTables(DeleteStatement(FAMILY, ORPHAN, schema, PARENTS).value);
  }

  lemma EmptyTables(db: Database)
    requires db.Keys == FAMILY.Keys && forall u :: u in db ==> db[u] == map[]
    ensures db == map[PARENTS := map[], CHILDREN := map[]]
  {
    assert FAMILY.Keys == {PARENTS, CHILDREN};
  }

  lemma AllCascaded()
    ensures AllRows(FAMILY) <= Cascaded(FAMILY, ParentAndChild(Cascade), Surplus(FAMILY, ORPHAN, PARENTS))
  {
    FamilyGone(Cascade);
    FamilyReferences(Cascade, {PARENT_ID, CHILD_ID});
    hide References, Cascaded, AllRows, Surplus;
  }

  lemma SetNullKeepsChild()
    ensures ApplyDelete(FAMILY, ORPHAN, ParentAndChild(SetNull), PARENTS)
      == Done(map[PARENTS := map[], CHILDREN := map[[Val(7)] := CHILD_ROW["parent" := Null]]])
  {
    var schema := ParentAndChild(SetNull);
    FamilyGone(SetNull);
    FamilyReferences(SetNull, {PARENT_ID});
    assert "parent" in schema[CHILDREN].foreignKeys[0].columns;
    assert NullColumns(FAMILY, schema, CHILD_ID, {PARENT_ID}) == {"parent"};
    hide NullColumns, References, Cascaded, AllRows, Surplus;
    assert !Objects(FAMILY, schema, CHILD_ID, {PARENT_ID});
    hide Objects, Without;
    ParentGone(schema);
  }

  lemma ParentGone(schema: ValidatedSchema)
    requires FAMILY.Keys <= schema.Keys && NullColumns(FAMILY, schema, CHILD_ID, {PARENT_ID}) == {"parent"}
    ensures Without(FAMILY, schema, {PARENT_ID}) == map[PARENTS := map[], CHILDREN := map[[Val(7)] := CHILD_ROW["parent" := Null]]]
  {
    assert Emptied(CHILD_ROW, {"parent"}) == CHILD_ROW["parent" := Null];
    hide NullColumns, Emptied;
    var after := Without(FAMILY, schema, {PARENT_ID});
    assert after[PARENTS] == map[];
    assert after[CHILDREN] == map[[Val(7)] := CHILD_ROW["parent" := Null]];
  }

  lemma OthersRefuse(action: ForeignKeyAction)
    requires action in {NoAction, Restrict}
    ensures ApplyDelete(FAMILY, ORPHAN, ParentAndChild(action), PARENTS) == ApplyFailure(Delete, PARENTS)
  {
    var schema := ParentAndChild(action);
    FamilyGone(action);
    FamilyReferences(action, {PARENT_ID});
    hide References, Cascaded, AllRows, Surplus;
    assert NullColumns(FAMILY, schema, CHILD_ID, {PARENT_ID}) == {};
    assert Objects(FAMILY, schema, CHILD_ID, {PARENT_ID});
  }

  /** A pass between the parent's and the child's deletion at the source: the helper tables have the child without
      its parent.  NO ACTION and RESTRICT fail the pass; CASCADE and SET NULL let it succeed without the child, or
      without its reference. */
  lemma OrphanPass(action: ForeignKeyAction)
    ensures Pass(FAMILY, ORPHAN, ParentAndChild(action), FAMILY_ORDER) ==
      match action
      case Cascade => Done(map[PARENTS := map[], CHILDREN := map[]])
      case SetNull => Done(map[PARENTS := map[], CHILDREN := map[[Val(7)] := CHILD_ROW["parent" := Null]]])
      case _ => ApplyFailure(Delete, PARENTS)
    ensures [Val(7)] in ShownAll(ORPHAN, ParentAndChild(action))[CHILDREN]
    ensures ShownAll(ORPHAN, ParentAndChild(action))[CHILDREN][[Val(7)]] == CHILD_ROW
  {
    var schema := ParentAndChild(action);
    FamilyUpserted(action);
    ChildrenKept(action);
    match action {
      case Cascade => CascadeTakesBoth();
      case SetNull => SetNullKeepsChild();
      case _ => OthersRefuse(action);
    }
    OrphanShown(action);
    hide ApplyDelete, ApplyUpsert, ApplyAll, FAMILY, ORPHAN, ParentAndChild, ShownAll, CHILD_ROW, CHILDREN, PARENTS;
    TwoDeletes(FAMILY, ORPHAN, schema);
  }

  lemma OrphanShown(action: ForeignKeyAction)
    ensures var schema := ParentAndChild(action);
      && Runnable(FAMILY, ORPHAN, schema, FAMILY_ORDER.deleteOrder)
      && Runnable(FAMILY, ORPHAN, schema, [CHILDREN]) && Runnable(FAMILY, ORPHAN, schema, [PARENTS])
      && ShownAll(ORPHAN, schema).Keys == ORPHAN.Keys
      && [Val(7)] in ShownAll(ORPHAN, schema)[CHILDREN] && ShownAll(ORPHAN, schema)[CHILDREN][[Val(7)]] == CHILD_ROW
  {
    var s := ParentAndChild(action)[CHILDREN];
    assert Writable(s) == {"id", "parent"};
    assert Narrowed(CHILD_ROW, Writable(s)) == CHILD_ROW;
  }

  lemma TwoDeletes(db: Database, helper: Database, schema: ValidatedSchema)
    requires Runnable(db, helper, schema, [CHILDREN, PARENTS]) && Runnable(db, helper, schema, [CHILDREN]) && Runnable(db, helper, schema, [PARENTS])
    requires ApplyDelete(db, helper, schema, CHILDREN) == Done(db)
    ensures ApplyAll(db, helper, schema, Delete, [CHILDREN, PARENTS]) == ApplyDelete(db, helper, schema, PARENTS)
  {
    hide ApplyDelete, CHILDREN, PARENTS;
    var tables := [CHILDREN, PARENTS];
    assert tables[..1] == [CHILDREN] && tables[..1][..0] == [];
    assert ApplyAll(db, helper, schema, Delete, tables[..1]) == Done(db);
  }
}

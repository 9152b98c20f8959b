/**
 The structural invariant of the version and dependency tables, and what the insertion of
 one version does to every record read back from them.
 */
module RegistryRows {
  import opened RegistryDocuments
  import opened RegistryRepository
  import opened RegistryTables
  import opened SemVer
  import opened StableSort
  import opened Wrappers

  ghost predicate UniqueRows(db: Db) {
    forall i, j | 0 <= i < j < |db.versions| ::
      !(db.versions[i].moduleId == db.versions[j].moduleId && db.versions[i].version == db.versions[j].version)
  }

  /** The rows of a module carry the orders 0, 1, 2, ... without gap or repetition. */
  ghost predicate DenseOrder(db: Db, id: string) {
    var rows := RowsOf(db, id);
    forall i | 0 <= i < |rows| :: rows[i].order == i
  }

  ghost predicate RowHolds(db: Db, r: VersionRow) {
    r.moduleId in db.modules && ValidSingle(r.moduleId, ReleaseStructure(db, r))
  }

  ghost predicate DependenciesOwned(db: Db) {
    forall k | k in db.dependencies :: FindRow(db.versions, k.0, k.1).Some?
  }

  ghost predicate RowsWell(db: Db) {
    && UniqueRows(db)
    && (forall id :: DenseOrder(db, id))
    && (forall r | r in db.versions :: RowHolds(db, r))
    && DependenciesOwned(db)
  }

  /** b is a with one more version row, its release r and the dependency rows of r. */
  ghost predicate Inserted(a: Db, b: Db, row: VersionRow, r: Release) {
    && b.publishers == a.publishers && b.modules == a.modules
    && b.versions == a.versions + [row]
    && b.dependencies == a.dependencies + DependencyRows(row.moduleId, r)
    && row == RowOf(row.moduleId, r, row.order, row.promoted, row.provenance)
  }

  /** The version is free and the row takes the next place of its module. */
  ghost predicate TakesNextPlace(a: Db, row: VersionRow) {
    && FindRow(a.versions, row.moduleId, row.version).None?
    && row.order == |Filter(a.versions, OfModule(row.moduleId))|
  }

  /** Rows that were there read back as before: no new dependency belongs to them. */
  lemma InsertedOld(a: Db, b: Db, row: VersionRow, r: Release, x: VersionRow)
    requires Inserted(a, b, row, r) && !(x.moduleId == row.moduleId && x.version == row.version)
    ensures ReleaseStructure(b, x) == ReleaseStructure(a, x)
  {
    var before, after := DependenciesOf(a, x.moduleId, x.version), DependenciesOf(b, x.moduleId, x.version);
    forall d ensures (d in before <==> d in after) && (d in before ==> before[d] == after[d]) {
      var k := (x.moduleId, x.version, d);
      assert k.0 == x.moduleId && k.1 == x.version && k.2 == d;
      assert k !in DependencyRows(row.moduleId, r);
      assert k in a.dependencies <==> k in b.dependencies;
    }
    assert before == after;
  }

  /** The new row reads back as the release that was inserted. */
  lemma InsertedNew(a: Db, b: Db, row: VersionRow, r: Release)
    requires Inserted(a, b, row, r) && DependenciesOwned(a) && FindRow(a.versions, row.moduleId, row.version).None?
    ensures ReleaseStructure(b, row) == r
  {
    var after := DependenciesOf(b, row.moduleId, row.version);
    forall d ensures (d in after <==> d in r.requiresModules) && (d in after ==> after[d] == r.requiresModules[d]) {
      var k := (row.moduleId, row.version, d);
      assert k.0 == row.moduleId && k.1 == row.version && k.2 == d;
      assert k !in a.dependencies;
      assert k in b.dependencies <==> d in r.requiresModules;
    }
    assert after == r.requiresModules;
  }

  lemma InsertedFind(a: Db, b: Db, row: VersionRow, r: Release, id: string, v: Version)
    requires Inserted(a, b, row, r)
    ensures FindRow(b.versions, id, v) ==
            if FindRow(a.versions, id, v).Some? then FindRow(a.versions, id, v)
            else if row.moduleId == id && row.version == v then Some(row) else None
  {
    FindRowAppend(a.versions, [row], id, v);
    assert [row][1..] == [];
  }

  lemma InsertedFilter(a: Db, b: Db, row: VersionRow, r: Release, id: string)
    requires Inserted(a, b, row, r)
    ensures Filter(b.versions, OfModule(id)) ==
            if row.moduleId == id then Filter(a.versions, OfModule(id)) + [row] else Filter(a.versions, OfModule(id))
  {
    FilterAppend(a.versions, [row], OfModule(id));
    var f := Filter(a.versions, OfModule(id));
    if row.moduleId == id {
      FilterAll([row], OfModule(id));
    } else {
      FilterNone([row], OfModule(id));
      assert f + [] == f;
    }
  }

  lemma DenseRow(db: Db, id: string, r: VersionRow)
    requires DenseOrder(db, id) && r in db.versions && r.moduleId == id
    ensures r.order < |Filter(db.versions, OfModule(id))| && RowsOf(db, id)[r.order] == r
  {
    var rows := RowsOf(db, id);
    SortPermutes(Filter(db.versions, OfModule(id)));
    assert r in rows;
  }

  lemma DenseNext(db: Db, id: string)
    requires DenseOrder(db, id)
    ensures NextOrder(db, id) == |Filter(db.versions, OfModule(id))|
  {
    var f := Filter(db.versions, OfModule(id));
    if f != [] {
      var n := MaxOrder(f);
      var top :| top in f && top.order == n;
      DenseRow(db, id, top);
      var last := RowsOf(db, id)[|f| - 1];
      assert last in RowsOf(db, id);
      SortPermutes(f);
      assert last in f;
    }
  }

  lemma InsertedRows(a: Db, b: Db, row: VersionRow, r: Release)
    requires Inserted(a, b, row, r) && TakesNextPlace(a, row) && DenseOrder(a, row.moduleId)
    ensures RowsOf(b, row.moduleId) == RowsOf(a, row.moduleId) + [row]
  {
    var f := Filter(a.versions, OfModule(row.moduleId));
    InsertedFilter(a, b, row, r, row.moduleId);
    forall y | y in f ensures !OrderLess(row, y) { DenseRow(a, row.moduleId, y); }
    SortAppend(f, row, OrderLess);
  }

  lemma InsertKeepsDense(a: Db, b: Db, row: VersionRow, r: Release, id: string)
    requires Inserted(a, b, row, r) && TakesNextPlace(a, row) && DenseOrder(a, id)
    ensures DenseOrder(b, id)
  {
    if id == row.moduleId {
      InsertedRows(a, b, row, r);
    } else {
      InsertLeavesProjection(a, b, row, r, id);
    }
  }

  /** The projection of the module grows at its end by exactly the inserted release. */
  lemma InsertProjects(a: Db, b: Db, row: VersionRow, r: Release)
    requires Inserted(a, b, row, r) && TakesNextPlace(a, row) && DependenciesOwned(a) && DenseOrder(a, row.moduleId)
    ensures Project(b, row.moduleId) == Project(a, row.moduleId) + [r]
  {
    var id := row.moduleId;
    InsertedRows(a, b, row, r);
    InsertedNew(a, b, row, r);
    var rows := RowsOf(a, id);
    SortPermutes(Filter(a.versions, OfModule(id)));
    forall i | 0 <= i < |rows| ensures ReleaseStructure(b, rows[i]) == ReleaseStructure(a, rows[i]) {
      assert rows[i] in rows;
      InsertedOld(a, b, row, r, rows[i]);
    }
  }

  /** The projection of every other module stays as it is. */
  lemma InsertLeavesProjection(a: Db, b: Db, row: VersionRow, r: Release, id: string)
    requires Inserted(a, b, row, r) && id != row.moduleId
    ensures RowsOf(b, id) == RowsOf(a, id) && Project(b, id) == Project(a, id)
  {
    hide ReleaseStructure, Inserted;
    InsertedFilter(a, b, row, r, id);
    var rows := RowsOf(a, id);
    SortPermutes(Filter(a.versions, OfModule(id)));
    forall i | 0 <= i < |rows| ensures ReleaseStructure(b, rows[i]) == ReleaseStructure(a, rows[i]) {
      assert rows[i] in rows;
      InsertedOld(a, b, row, r, rows[i]);
    }
  }

  lemma InsertKeepsRows(a: Db, b: Db, row: VersionRow, r: Release)
    requires RowsWell(a) && Inserted(a, b, row, r) && TakesNextPlace(a, row)
    requires row.moduleId in a.modules && ValidSingle(row.moduleId, r)
    ensures RowsWell(b)
  {
    hide ReleaseStructure, ValidSingle, DenseOrder, DependencyRows;
    forall id ensures DenseOrder(b, id) { InsertKeepsDense(a, b, row, r, id); }
    forall x | x in b.versions ensures RowHolds(b, x) {
      if x in a.versions {
        InsertedOld(a, b, row, r, x);
      } else {
        assert x == row;
        InsertedNew(a, b, row, r);
      }
    }
    InsertKeepsOwned(a, b, row, r);
    InsertKeepsUnique(a, b, row, r);
  }

  lemma InsertKeepsUnique(a: Db, b: Db, row: VersionRow, r: Release)
    requires UniqueRows(a) && Inserted(a, b, row, r) && FindRow(a.versions, row.moduleId, row.version).None?
    ensures UniqueRows(b)
  {
    assert forall i | 0 <= i < |a.versions| :: a.versions[i] in a.versions;
  }

  lemma InsertKeepsOwned(a: Db, b: Db, row: VersionRow, r: Release)
    requires DependenciesOwned(a) && Inserted(a, b, row, r)
    ensures DependenciesOwned(b)
  {
    forall k | k in b.dependencies ensures FindRow(b.versions, k.0, k.1).Some? {
      InsertedFind(a, b, row, r, k.0, k.1);
      if k !in a.dependencies { assert k in DependencyRows(row.moduleId, r); }
    }
  }

  /** A row and its key determine each other. */
  lemma {:induction false} FindRowUnique(rows: seq<VersionRow>, x: VersionRow)
    requires x in rows
    requires forall i, j | 0 <= i < j < |rows| ::
             !(rows[i].moduleId == rows[j].moduleId && rows[i].version == rows[j].version)
    ensures FindRow(rows, x.moduleId, x.version) == Some(x)
  {
    if rows[0] != x {
      assert x in rows[1..];
      var k :| 0 <= k < |rows| && rows[k] == x;
      FindRowUnique(rows[1..], x);
    }
  }

  /** One pointer moved to an existing row changes one entry of the joined pointers. */
  lemma MovedChannelMap(a: Db, b: Db, id: string, c: Channel, p: Pointer)
    requires b.channels == a.channels[(id, c) := p]
    requires forall v | FindRow(a.versions, id, v).Some? :: FindRow(b.versions, id, v) == FindRow(a.versions, id, v)
    requires forall d: Channel | (id, d) in a.channels :: FindRow(a.versions, id, a.channels[(id, d)].version).Some?
    requires FindRow(b.versions, id, p.version).Some?
    ensures ChannelMap(b, id) ==
            ChannelMap(a, id)[c := Target(p.version, FindRow(b.versions, id, p.version).value.digest)]
  {
    hide FindRow;
    forall d: Channel | d != c ensures (id, d) in b.channels <==> (id, d) in a.channels {
      assert (id, d) != (id, c);
    }
  }
}

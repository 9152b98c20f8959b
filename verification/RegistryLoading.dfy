/**
 What loading a v1 source does to the tables, stage by stage, for any tables it starts from:
 everything that was there stays, every item of the source is stored at its position.
 */
module RegistryLoading {
  import opened RegistryDocuments
  import opened RegistryImport
  import opened RegistryRepository
  import opened RegistryRows
  import opened RegistryTables
  import opened SemVer
  import opened Wrappers

  /** RowsWell without the order. */
  ghost predicate Tidy(db: Db) {
    UniqueRows(db) && DependenciesOwned(db) && forall r | r in db.versions :: RowHolds(db, r)
  }

  /** The version is there as a historical one, at this position, and reads back as the release. */
  ghost predicate Stored(d: Db, it: ImportItem) {
    && it.id in d.modules && ValidSingle(it.id, it.release)
    && var row := FindRow(d.versions, it.id, it.release.version);
       && row.Some? && row.value.order == it.position && !row.value.promoted
       && row.value.provenance == HistoricalProvenance(d.modules[it.id], it.release)
       && ReleaseStructure(d, row.value) == it.release
  }

  function ItemRow(d: Db, it: ImportItem): VersionRow
    requires it.id in d.modules
  {
    RowOf(it.id, it.release, it.position, false, HistoricalProvenance(d.modules[it.id], it.release))
  }

  // ----- One item -----

  lemma StoredIsNoOp(d: Db, it: ImportItem)
    ensures Stored(d, it) <==> AddItem(d, it).Ok? && !AddItem(d, it).value.1
    ensures Stored(d, it) ==> AddItem(d, it) == Ok((d, false))
  {
    hide ReleaseStructure, ValidSingle, HistoricalProvenance, NextOrder;
    ApplyAllNone(d);
  }

  lemma AddItemInserts(d: Db, it: ImportItem)
    requires AddItem(d, it).Ok? && AddItem(d, it).value.1
    ensures it.id in d.modules && ValidSingle(it.id, it.release)
    ensures FindRow(d.versions, it.id, it.release.version).None?
    ensures it.release.requiresModules.Keys <= d.modules.Keys
    ensures var d' := AddItem(d, it).value.0;
            && Inserted(d, d', ItemRow(d, it), it.release)
            && d'.channels == d.channels && d'.events == d.events
            && d'.artifacts == if it.release.sha256 in d.artifacts then d.artifacts
                               else d.artifacts[it.release.sha256 := ArtifactRow(None, None)]
  {
    hide ReleaseStructure, ValidSingle, HistoricalProvenance, NextOrder, DependencyRows, FindRow;
    var ensured := EnsureArtifactLog(d, it.release.sha256);
    var insert :=
      InsertWrite(it.id, it.release, it.position, false, HistoricalProvenance(d.modules[it.id], it.release));
    ApplyAllAppend(d, ensured, insert);
    ApplyAllNone(d);
    if ensured != [] { ApplyAllAppend(d, [], ensured[0]); assert [] + [ensured[0]] == ensured; }
  }

  lemma FreshItemInserts(d: Db, it: ImportItem)
    requires it.id in d.modules && ValidSingle(it.id, it.release)
    requires FindRow(d.versions, it.id, it.release.version).None?
    ensures AddItem(d, it).Ok? <==> it.release.requiresModules.Keys <= d.modules.Keys
    ensures AddItem(d, it).Ok? ==> AddItem(d, it).value.1
  {
    hide ReleaseStructure, ValidSingle, HistoricalProvenance, NextOrder, DependencyRows, FindRow, ApplyAll;
  }

  /** Nothing but versions, dependencies and artifacts changes. */
  ghost predicate SameFrame(a: Db, b: Db) {
    b.publishers == a.publishers && b.modules == a.modules && b.channels == a.channels && b.events == a.events
  }

  /** Version, dependency and artifact rows stay as they are; new ones are added. */
  ghost predicate RowsKept(a: Db, b: Db) {
    a.versions <= b.versions && Extends(a.dependencies, b.dependencies) && Extends(a.artifacts, b.artifacts)
  }

  lemma FreeHasNoDependencies(d: Db, row: VersionRow, r: Release)
    requires DependenciesOwned(d) && FindRow(d.versions, row.moduleId, row.version).None? && row.version == r.version
    ensures Extends(d.dependencies, d.dependencies + DependencyRows(row.moduleId, r))
  {
    forall k | k in d.dependencies ensures k !in DependencyRows(row.moduleId, r) {
      assert FindRow(d.versions, k.0, k.1).Some?;
    }
  }

  lemma AddItemKeeps(d: Db, it: ImportItem)
    requires Tidy(d) && AddItem(d, it).Ok?
    ensures var (d', inserted) := AddItem(d, it).value;
            && Tidy(d') && SameFrame(d, d') && Stored(d', it)
            && |d'.versions| == |d.versions| + (if inserted then 1 else 0)
            && RowsKept(d, d')
            && (forall r | r in d'.versions :: r in d.versions || !r.promoted)
  {
    hide AddItem, ReleaseStructure, ValidSingle, HistoricalProvenance, DependencyRows, FindRow;
    StoredIsNoOp(d, it);
    var (d', inserted) := AddItem(d, it).value;
    if inserted {
      AddItemInserts(d, it);
      var row := ItemRow(d, it);
      InsertedNew(d, d', row, it.release);
      InsertedFind(d, d', row, it.release, it.id, it.release.version);
      InsertKeepsOwned(d, d', row, it.release);
      FreeHasNoDependencies(d, row, it.release);
      InsertKeepsUnique(d, d', row, it.release);
      forall x | x in d'.versions ensures RowHolds(d', x) {
        if x in d.versions { InsertedRowKept(d, d', row, it.release, x); }
      }
    }
  }

  lemma InsertedRowKept(a: Db, b: Db, row: VersionRow, r: Release, x: VersionRow)
    requires Inserted(a, b, row, r) && x in a.versions && FindRow(a.versions, row.moduleId, row.version).None?
    ensures ReleaseStructure(b, x) == ReleaseStructure(a, x)
  {
    InsertedOld(a, b, row, r, x);
  }

  lemma AddItemKeepsFound(d: Db, it: ImportItem, id: string, v: Version)
    requires AddItem(d, it).Ok? && FindRow(d.versions, id, v).Some?
    ensures var d' := AddItem(d, it).value.0;
            && FindRow(d'.versions, id, v) == FindRow(d.versions, id, v)
            && ReleaseStructure(d', FindRow(d.versions, id, v).value) ==
              ReleaseStructure(d, FindRow(d.versions, id, v).value)
  {
    hide AddItem, ReleaseStructure, ValidSingle, HistoricalProvenance, DependencyRows;
    StoredIsNoOp(d, it);
    if AddItem(d, it).value.1 {
      AddItemInserts(d, it);
      InsertedFind(d, AddItem(d, it).value.0, ItemRow(d, it), it.release, id, v);
      InsertedRowKept(d, AddItem(d, it).value.0, ItemRow(d, it), it.release, FindRow(d.versions, id, v).value);
    }
  }

  // ----- All items -----

  ghost predicate FoundKept(a: Db, b: Db) {
    forall id, v | FindRow(a.versions, id, v).Some? ::
      && FindRow(b.versions, id, v) == FindRow(a.versions, id, v)
      && ReleaseStructure(b, FindRow(a.versions, id, v).value) == ReleaseStructure(a, FindRow(a.versions, id, v).value)
  }

  lemma StoredKept(a: Db, b: Db, it: ImportItem)
    requires FoundKept(a, b) && a.modules == b.modules && Stored(a, it)
    ensures Stored(b, it)
  {
    hide ReleaseStructure, FindRow, ValidSingle;
  }

  lemma {:induction false} AddItemsKeep(d: Db, items: seq<ImportItem>)
    requires Tidy(d) && AddItems(d, items).Ok?
    ensures var (d', n) := AddItems(d, items).value;
            && Tidy(d') && SameFrame(d, d') && FoundKept(d, d')
            && (forall it | it in items :: Stored(d', it))
            && |d'.versions| == |d.versions| + n && RowsKept(d, d')
            && (forall r | r in d'.versions :: r in d.versions || !r.promoted)
  {
    hide Tidy, AddItem, Stored, FindRow, ReleaseStructure;
    if items != [] {
      var k := |items| - 1;
      AddItemsKeep(d, items[..k]);
      var mid := AddItems(d, items[..k]).value.0;
      var d' := AddItem(mid, items[k]).value.0;
      AddItemKeeps(mid, items[k]);
      forall id, v | FindRow(mid.versions, id, v).Some?
        ensures FindRow(d'.versions, id, v) == FindRow(mid.versions, id, v)
        ensures ReleaseStructure(d', FindRow(mid.versions, id, v).value) ==
                ReleaseStructure(mid, FindRow(mid.versions, id, v).value)
      {
        AddItemKeepsFound(mid, items[k], id, v);
      }
      forall it | it in items ensures Stored(d', it) {
        if it != items[k] { assert it in items[..k]; StoredKept(mid, d', it); }
      }
    }
  }

  lemma {:induction false} AddItemsNoOp(d: Db, items: seq<ImportItem>)
    requires forall it | it in items :: Stored(d, it)
    ensures AddItems(d, items) == Ok((d, 0))
  {
    hide AddItem, Stored;
    if items != [] {
      AddItemsNoOp(d, items[..|items| - 1]);
      StoredIsNoOp(d, items[|items| - 1]);
    }
  }

  // ----- Publishers and modules -----

  ghost predicate PublishersAccepted(db: Db, ms: seq<ModuleDoc>) {
    && (forall m | m in ms && m.publisherId in db.publishers :: db.publishers[m.publisherId] == m.publisherName)
    && (forall m, m' | m in ms && m' in ms && m.publisherId == m'.publisherId :: m.publisherName == m'.publisherName)
  }

  ghost predicate Names(d: Db, m: ModuleDoc) {
    m.publisherId in d.publishers && d.publishers[m.publisherId] == m.publisherName
  }

  ghost predicate Extends<K, V>(a: map<K, V>, b: map<K, V>) {
    forall k | k in a :: k in b && b[k] == a[k]
  }

  ghost predicate PublishersLoaded(db: Db, d: Db, ms: seq<ModuleDoc>) {
    && d == db.(publishers := d.publishers)
    && Extends(db.publishers, d.publishers)
    && (forall m | m in ms :: Names(d, m))
    && (forall p | p in d.publishers :: p in db.publishers || exists m :: m in ms && m.publisherId == p)
  }

  lemma AddPublisherStep(db: Db, d: Db, ms: seq<ModuleDoc>, m: ModuleDoc)
    requires PublishersLoaded(db, d, ms) && AddPublisher(d, m).Ok?
    ensures PublishersLoaded(db, AddPublisher(d, m).value, ms + [m])
  {}

  lemma {:induction false} AddPublishersKeep(db: Db, ms: seq<ModuleDoc>)
    requires AddPublishers(db, ms).Ok?
    ensures PublishersLoaded(db, AddPublishers(db, ms).value, ms)
  {
    if ms != [] {
      hide PublishersLoaded, AddPublisher;
      var k := |ms| - 1;
      AddPublishersKeep(db, ms[..k]);
      AddPublisherStep(db, AddPublishers(db, ms[..k]).value, ms[..k], ms[k]);
      assert ms == ms[..k] + [ms[k]];
    }
  }

  /** Publishers load exactly when no ID is given two names. */
  lemma {:induction false} AddPublishersAccepts(db: Db, ms: seq<ModuleDoc>)
    ensures AddPublishers(db, ms).Ok? <==> PublishersAccepted(db, ms)
  {
    if ms != [] {
      var k := |ms| - 1;
      AddPublishersAccepts(db, ms[..k]);
      assert ms == ms[..k] + [ms[k]];
      if AddPublishers(db, ms[..k]).Ok? {
        AddPublishersKeep(db, ms[..k]);
        AddPublisherAccepts(db, AddPublishers(db, ms[..k]).value, ms[..k], ms[k]);
      }
    }
  }

  lemma AddPublisherAccepts(db: Db, d: Db, ms: seq<ModuleDoc>, m: ModuleDoc)
    requires PublishersLoaded(db, d, ms) && PublishersAccepted(db, ms)
    ensures AddPublisher(d, m).Ok? <==> PublishersAccepted(db, ms + [m])
  {
    assert forall x | x in ms :: Names(d, x);
    assert m in ms + [m];
    if AddPublisher(d, m).Ok? {
      forall x, y | x in ms + [m] && y in ms + [m] && x.publisherId == y.publisherId
        ensures x.publisherName == y.publisherName
      {
        assert x in ms ==> Names(d, x);
        assert y in ms ==> Names(d, y);
      }
    }
  }

  lemma AddPublishersNoOp(d: Db, ms: seq<ModuleDoc>)
    requires forall m | m in ms :: Names(d, m)
    ensures AddPublishers(d, ms) == Ok(d)
  {
    if ms != [] {
      AddPublishersNoOp(d, ms[..|ms| - 1]);
      assert Names(d, ms[|ms| - 1]);
    }
  }

  ghost predicate ModulesAccepted(db: Db, ms: seq<ModuleDoc>) {
    forall m | m in ms && m.id in db.modules :: db.modules[m.id] == ModuleRowOf(m)
  }

  ghost predicate Registers(d: Db, m: ModuleDoc) { m.id in d.modules && d.modules[m.id] == ModuleRowOf(m) }

  ghost predicate ModulesLoaded(db: Db, d: Db, ms: seq<ModuleDoc>) {
    && d == db.(modules := d.modules)
    && Extends(db.modules, d.modules)
    && (forall m | m in ms :: Registers(d, m))
    && d.modules.Keys == db.modules.Keys + Ids(ms)
  }

  ghost predicate UniqueIds(ms: seq<ModuleDoc>) {
    forall i, j | 0 <= i < j < |ms| :: ms[i].id != ms[j].id
  }

  lemma AddModuleStep(db: Db, d: Db, ms: seq<ModuleDoc>, m: ModuleDoc)
    requires ModulesLoaded(db, d, ms) && AddModule(d, m).Ok?
    ensures ModulesLoaded(db, AddModule(d, m).value, ms + [m])
  {
    hide ModuleRowOf;
    assert Ids(ms + [m]) == Ids(ms) + {m.id};
  }

  lemma {:induction false} AddModulesKeep(db: Db, ms: seq<ModuleDoc>)
    requires AddModules(db, ms).Ok?
    ensures ModulesLoaded(db, AddModules(db, ms).value, ms)
  {
    if ms != [] {
      hide ModulesLoaded, AddModule;
      var k := |ms| - 1;
      AddModulesKeep(db, ms[..k]);
      AddModuleStep(db, AddModules(db, ms[..k]).value, ms[..k], ms[k]);
      assert ms == ms[..k] + [ms[k]];
    }
  }

  /** Modules load exactly when none is registered differently. */
  lemma {:induction false} AddModulesAccepts(db: Db, ms: seq<ModuleDoc>)
    requires UniqueIds(ms)
    ensures AddModules(db, ms).Ok? <==> ModulesAccepted(db, ms)
  {
    if ms != [] {
      hide ModuleRowOf;
      var k := |ms| - 1;
      AddModulesAccepts(db, ms[..k]);
      assert ms == ms[..k] + [ms[k]];
      if AddModules(db, ms[..k]).Ok? { AddModulesKeep(db, ms[..k]); }
    }
  }

  lemma AddModulesNoOp(d: Db, ms: seq<ModuleDoc>)
    requires forall m | m in ms :: Registers(d, m)
    ensures AddModules(d, ms) == Ok(d)
  {
    if ms != [] {
      AddModulesNoOp(d, ms[..|ms| - 1]);
      assert Registers(d, ms[|ms| - 1]);
    }
  }

  // ----- Pointers -----

  ghost predicate PointsAs(d: Db, p: Pointing) {
    (p.id, p.channel) in d.channels && d.channels[(p.id, p.channel)].version == p.version
  }

  ghost predicate PointingsAccepted(db: Db, ps: seq<Pointing>) {
    && (forall p | p in ps && (p.id, p.channel) in db.channels :: PointsAs(db, p))
    && (forall p, q | p in ps && q in ps && p.id == q.id && p.channel == q.channel :: p.version == q.version)
  }

  ghost predicate Sets(d: Db, k: (string, Channel), ps: seq<Pointing>) {
    k in d.channels && exists p :: p in ps && k == (p.id, p.channel) && d.channels[k] == Pointer(p.version, 1)
  }

  ghost predicate PointingsLoaded(db: Db, d: Db, ps: seq<Pointing>) {
    && d == db.(channels := d.channels)
    && Extends(db.channels, d.channels)
    && (forall p | p in ps :: PointsAs(d, p))
    && (forall k | k in d.channels :: k in db.channels || Sets(d, k, ps))
  }

  lemma AddPointingStep(db: Db, d: Db, ps: seq<Pointing>, p: Pointing)
    requires PointingsLoaded(db, d, ps) && AddPointing(d, p).Ok?
    ensures PointingsLoaded(db, AddPointing(d, p).value, ps + [p])
  {
    var d' := AddPointing(d, p).value;
    forall k | k in d'.channels ensures k in db.channels || Sets(d', k, ps + [p]) {
      if k in d.channels && k !in db.channels {
        var q :| q in ps && k == (q.id, q.channel) && d.channels[k] == Pointer(q.version, 1);
        assert q in ps + [p];
      }
      assert p in ps + [p];
    }
  }

  lemma {:induction false} AddPointingsKeep(db: Db, ps: seq<Pointing>)
    requires AddPointings(db, ps).Ok?
    ensures PointingsLoaded(db, AddPointings(db, ps).value, ps)
  {
    if ps != [] {
      hide PointingsLoaded, AddPointing;
      var k := |ps| - 1;
      AddPointingsKeep(db, ps[..k]);
      AddPointingStep(db, AddPointings(db, ps[..k]).value, ps[..k], ps[k]);
      assert ps == ps[..k] + [ps[k]];
    }
  }

  lemma {:induction false} AddPointingsAccepts(db: Db, ps: seq<Pointing>)
    requires PointingsAccepted(db, ps)
    ensures AddPointings(db, ps).Ok?
  {
    if ps != [] {
      var k := |ps| - 1;
      AddPointingsAccepts(db, ps[..k]);
      AddPointingsKeep(db, ps[..k]);
      var d := AddPointings(db, ps[..k]).value;
      assert ps[k] in ps;
      if (ps[k].id, ps[k].channel) in d.channels {
        assert (ps[k].id, ps[k].channel) in db.channels || Sets(d, (ps[k].id, ps[k].channel), ps[..k]);
      }
    }
  }

  lemma {:induction false} AddPointingsNoOp(d: Db, ps: seq<Pointing>)
    requires forall p | p in ps :: PointsAs(d, p)
    ensures AddPointings(d, ps) == Ok(d)
  {
    if ps != [] {
      AddPointingsNoOp(d, ps[..|ps| - 1]);
      assert PointsAs(d, ps[|ps| - 1]);
    }
  }
}

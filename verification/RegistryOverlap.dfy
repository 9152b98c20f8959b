/**
 An import that overlaps with promotions: what it may see, what it would add, and that after a
 promotion it can never commit again.
 */
module RegistryOverlap {
  import opened RegistryDocuments
  import opened RegistryImport
  import opened RegistryImportLaws
  import opened RegistryInvariant
  import opened RegistryLoading
  import opened RegistryPromotion
  import opened RegistryRepository
  import opened RegistryRows
  import opened RegistryTables
  import opened SemVer
  import opened Wrappers

  // ----- Locked out -----

  /**
   What an overlapping import may see. Imports exclude each other, and nothing else writes
   publishers, modules or historical versions, so those are exact; so is everything until the
   first promotion. Each module of the source is locked from its first version on, and read
   back under that lock. Of other modules the latest promotions may be missing.
   */
  ghost predicate ImportViewFor(db: Db, view: Db, ms: seq<ModuleDoc>) {
    && (db.events == [] ==> view == db)
    && view.publishers == db.publishers && view.modules == db.modules
    && (forall r | r in db.versions && !r.promoted :: r in view.versions)
    && (forall id | id in Ids(ms) :: SameSlice(db, view, id))
  }

  ghost predicate FoundHistorical(d: Db, it: ImportItem) {
    var row := FindRow(d.versions, it.id, it.release.version);
    row.Some? && !row.value.promoted
  }

  lemma AddItemFinds(d: Db, it: ImportItem)
    requires AddItem(d, it).Ok?
    ensures var d' := AddItem(d, it).value.0;
            d.versions <= d'.versions && d'.modules == d.modules && FoundHistorical(d', it)
  {
    hide AddItem, ReleaseStructure, ValidSingle, HistoricalProvenance, DependencyRows, FindRow;
    StoredIsNoOp(d, it);
    if AddItem(d, it).value.1 {
      AddItemInserts(d, it);
      InsertedFind(d, AddItem(d, it).value.0, ItemRow(d, it), it.release, it.id, it.release.version);
    }
  }

  /** A row that is found is found in every longer table. */
  lemma FoundInLonger(a: seq<VersionRow>, b: seq<VersionRow>, id: string, v: Version)
    requires a <= b && FindRow(a, id, v).Some?
    ensures FindRow(b, id, v) == FindRow(a, id, v)
  {
    FindRowAppend(a, b[|a|..], id, v);
    assert a + b[|a|..] == b;
  }

  lemma {:induction false} AddItemsFind(d: Db, items: seq<ImportItem>)
    requires AddItems(d, items).Ok?
    ensures var d' := AddItems(d, items).value.0;
            d.versions <= d'.versions && d'.modules == d.modules && forall it | it in items :: FoundHistorical(d', it)
  {
    hide AddItem, FindRow;
    if items != [] {
      var k := |items| - 1;
      AddItemsFind(d, items[..k]);
      var mid := AddItems(d, items[..k]).value.0;
      var d' := AddItem(mid, items[k]).value.0;
      AddItemFinds(mid, items[k]);
      forall it | it in items ensures FoundHistorical(d', it) {
        if it != items[k] {
          assert it in items[..k];
          FoundInLonger(mid.versions, d'.versions, it.id, it.release.version);
        }
      }
    }
  }

  /** Whatever tables an import sees: their versions stay, and each item is there as a historical one. */
  lemma LoadFinds(view: Db, ms: seq<ModuleDoc>)
    requires Load(view, ms).Ok?
    ensures var d := Load(view, ms).value.0;
            && view.versions <= d.versions && view.modules.Keys <= d.modules.Keys
            && forall it | it in ImportItems(ms) :: FoundHistorical(d, it)
  {
    hide AddPublishers, AddModules, AddItems, AddPointings, ImportItems, Pointings, Sets, FindRow;
    var a := AddPublishers(view, ms).value;
    var b := AddModules(a, ms).value;
    AddPublishersKeep(view, ms);
    AddModulesKeep(a, ms);
    AddItemsFind(b, ImportItems(ms));
    AddPointingsKeep(AddItems(b, ImportItems(ms)).value.0, Pointings(IndexEntries(ms)));
    assert forall it | it in ImportItems(ms) :: FoundHistorical(AddItems(b, ImportItems(ms)).value.0, it);
  }

  /** A module that the projection shows is in the source, release by release. */
  lemma ParityShows(d: Db, ms: seq<ModuleDoc>, id: string)
    requires ProjectV1(d) == Expected(ms) && id in d.modules && id in PublishedIds(d)
    ensures id in Ids(ms) && Project(d, id) == CanonicalModule(DocOf(ms, id)).versions
  {
    hide Project, CanonicalModule, DocOf;
    assert id in ProjectV1(d);
    assert ProjectV1(d)[id].versions == Project(d, id);
  }

  lemma ShownIsHistorical(d: Db, ms: seq<ModuleDoc>, id: string, row: VersionRow)
    requires id in Ids(ms) && Project(d, id) == CanonicalModule(DocOf(ms, id)).versions
    requires forall it | it in ImportItems(ms) :: FoundHistorical(d, it)
    requires row in d.versions && row.moduleId == id
    ensures FindRow(d.versions, id, row.version).Some? && !FindRow(d.versions, id, row.version).value.promoted
  {
    hide FindRow, CanonicalModule, ImportItems;
    InRowsOf(d, id, row);
    var i :| 0 <= i < |RowsOf(d, id)| && RowsOf(d, id)[i] == row;
    assert Project(d, id)[i] == ReleaseStructure(d, row);
    ItemAt(ms, DocOf(ms, id), i);
  }

  /** After any promotion no import commits, whatever registry it loads and whatever it overlaps with. */
  lemma ImportLockedOut(db: Db, view: Db, ms: seq<ModuleDoc>)
    requires Inv(db) && db.events != [] && ImportViewFor(db, view, ms)
    ensures Import(view, ms).Err?
  {
    hide Load, RowsWell, PointersAgree, PointersJoin, UniqueEvents, PromotedRecorded, PromotedLocated, ProjectV1,
      ChannelTargets, Expected, ExpectedChannels, CheckIntent, FindRow, ReleaseStructure, ValidSingle, SameSlice,
      Project, CanonicalModule;
    if Import(view, ms).Ok? {
      var d := Import(view, ms).value.0;
      LoadFinds(view, ms);
      var e := db.events[0];
      assert e in db.events && EventHolds(db, e);
      var id, v := e.intent.intent.moduleId, e.intent.candidate.version;
      EventModule(db, e);
      var r :| r in db.versions && r.moduleId == id && !r.promoted;
      assert r in d.versions && id in PublishedIds(d);
      ParityShows(d, ms, id);
      SliceFindRow(db, view, id, v);
      FoundInLonger(view.versions, d.versions, id, v);
      FindRowKey(d.versions, id, v);
      ShownIsHistorical(d, ms, id, FindRow(d.versions, id, v).value);
    }
  }

  lemma EventModule(db: Db, e: Event)
    requires EventHolds(db, e)
    ensures e.intent.intent.moduleId in db.modules
  {}

  // ----- What an import adds to the committed tables -----

  /** The rows that the import added to what it saw, beside everything committed; an existing row stays. */
  function Merged<K, V>(committed: map<K, V>, seen: map<K, V>, after: map<K, V>): map<K, V> {
    (after - seen.Keys) + committed
  }

  function Merge(db: Db, view: Db, d: Db): Db {
    Db(Merged(db.publishers, view.publishers, d.publishers), Merged(db.modules, view.modules, d.modules),
       Merged(db.artifacts, view.artifacts, d.artifacts),
       db.versions + if view.versions <= d.versions then d.versions[|view.versions|..] else [],
       Merged(db.dependencies, view.dependencies, d.dependencies), Merged(db.channels, view.channels, d.channels),
       db.events)
  }

  lemma MergedSame<K, V>(a: map<K, V>, b: map<K, V>)
    requires Extends(a, b)
    ensures Merged(a, a, b) == b
  {}

  /** An import that saw exactly the committed tables leaves exactly its own. */
  lemma MergeSame(db: Db, ms: seq<ModuleDoc>)
    requires Tidy(db) && Load(db, ms).Ok?
    ensures Merge(db, db, Load(db, ms).value.0) == Load(db, ms).value.0
  {
    hide Load, Merged, Extends, Tidy;
    LoadExtends(db, ms);
    var d := Load(db, ms).value.0;
    MergedSame(db.publishers, d.publishers);
    MergedSame(db.modules, d.modules);
    MergedSame(db.artifacts, d.artifacts);
    MergedSame(db.dependencies, d.dependencies);
    MergedSame(db.channels, d.channels);
  }

  lemma LoadExtends(db: Db, ms: seq<ModuleDoc>)
    requires Tidy(db) && Load(db, ms).Ok?
    ensures var d := Load(db, ms).value.0;
            && Extends(db.publishers, d.publishers) && Extends(db.modules, d.modules)
            && Extends(db.artifacts, d.artifacts)
            && db.versions <= d.versions && Extends(db.dependencies, d.dependencies) && Extends(db.channels, d.channels)
            && d.events == db.events
  {
    hide AddPublishers, AddModules, AddItems, AddPointings, ImportItems, Pointings, Sets, FindRow, Tidy, Stored,
      FoundKept, ReleaseStructure;
    var a := AddPublishers(db, ms).value;
    var b := AddModules(a, ms).value;
    AddPublishersKeep(db, ms);
    AddModulesKeep(a, ms);
    TidyGrows(db, b);
    AddItemsKeep(b, ImportItems(ms));
    AddPointingsKeep(AddItems(b, ImportItems(ms)).value.0, Pointings(IndexEntries(ms)));
  }
}

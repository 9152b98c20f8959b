/**
 What an import guarantees: repeating it changes nothing, and it keeps the invariant.
 */
module RegistryImportLaws {
  import opened RegistryDocuments
  import opened RegistryImport
  import opened RegistryInvariant
  import opened RegistryLoading
  import opened RegistryRepository
  import opened RegistryRows
  import opened RegistryTables
  import opened StableSort
  import opened Wrappers

  // ----- Members of the loaded sequences -----

  lemma {:induction false} ItemIn(ms: seq<ModuleDoc>, it: ImportItem)
    ensures it in ImportItems(ms) <==> exists m :: m in ms && it in ModuleItems(m)
  {
    if ms != [] {
      var k := |ms| - 1;
      ItemIn(ms[..k], it);
      assert ms == ms[..k] + [ms[k]];
      if it in ModuleItems(ms[k]) { assert ms[k] in ms; }
    }
  }

  lemma ItemAt(ms: seq<ModuleDoc>, m: ModuleDoc, i: nat)
    requires m in ms && i < |CanonicalModule(m).versions|
    ensures ImportItem(m.id, CanonicalModule(m).versions[i], i) in ImportItems(ms)
  {
    ItemIn(ms, ImportItem(m.id, CanonicalModule(m).versions[i], i));
    assert ModuleItems(m)[i] == ImportItem(m.id, CanonicalModule(m).versions[i], i);
    assert ModuleItems(m)[i] in ModuleItems(m);
  }

  ghost predicate Points(e: Entry, p: Pointing) {
    p.id == e.id && p.channel in e.channels && p.version == e.channels[p.channel].version
  }

  lemma {:induction false} PointingAmong(e: Entry, cs: seq<Channel>, p: Pointing)
    ensures p in PointingsAmong(e, cs) <==> Points(e, p) && p.channel in cs
  {
    if cs != [] {
      var k := |cs| - 1;
      PointingAmong(e, cs[..k], p);
      assert cs == cs[..k] + [cs[k]];
    }
  }

  lemma {:induction false} PointingInEntries(es: seq<Entry>, p: Pointing)
    ensures p in Pointings(es) <==> exists e :: e in es && Points(e, p)
  {
    if es != [] {
      var k := |es| - 1;
      PointingInEntries(es[..k], p);
      assert es == es[..k] + [es[k]];
      PointingAmong(es[k], CHANNELS, p);
      match p.channel
      case Stable => assert CHANNELS[0] in CHANNELS;
      case Beta => assert CHANNELS[1] in CHANNELS;
      case Nightly => assert CHANNELS[2] in CHANNELS;
    }
  }

  /** The index has one entry for each module of the source, and no other. */
  lemma EntryIn(ms: seq<ModuleDoc>, e: Entry)
    ensures e in IndexEntries(ms) <==> exists m :: m in ms && e == EntryOf(m)
  {
    hide EntryOf;
    var sorted := Sort(ms, ModuleIdLess);
    ModuleIdLessIsWeakOrder();
    SortSorts(ms, ModuleIdLess);
    forall m ensures m in sorted <==> m in ms { assert m in multiset(sorted) <==> m in multiset(ms); }
    if e in IndexEntries(ms) {
      var k :| 0 <= k < |sorted| && IndexEntries(ms)[k] == e;
      assert sorted[k] in sorted;
    }
    forall m | m in ms && e == EntryOf(m) ensures e in IndexEntries(ms) {
      var k :| 0 <= k < |sorted| && sorted[k] == m;
      assert IndexEntries(ms)[k] == EntryOf(m);
    }
  }

  /** The pointers that are loaded are exactly the index entries of the source. */
  lemma PointingIn(ms: seq<ModuleDoc>, p: Pointing)
    ensures p in Pointings(IndexEntries(ms)) <==> exists m :: m in ms && Points(EntryOf(m), p)
  {
    hide ChannelsOf, Points, IndexEntries, EntryOf;
    PointingInEntries(IndexEntries(ms), p);
    forall e ensures e in IndexEntries(ms) <==> exists m :: m in ms && e == EntryOf(m) { EntryIn(ms, e); }
  }

  // ----- What a load that went through leaves behind -----

  ghost predicate Loaded(db: Db, d: Db, ms: seq<ModuleDoc>) {
    && Tidy(d) && d.events == db.events
    && (forall m | m in ms :: Names(d, m) && Registers(d, m))
    && d.modules.Keys == db.modules.Keys + Ids(ms) && Extends(db.modules, d.modules)
    && (forall it | it in ImportItems(ms) :: Stored(d, it))
    && VersionsKept(db, d)
    && Extends(db.channels, d.channels)
    && (forall p | p in Pointings(IndexEntries(ms)) :: PointsAs(d, p))
    && (forall k | k in d.channels :: k in db.channels || Sets(d, k, Pointings(IndexEntries(ms))))
  }

  ghost predicate VersionsKept(db: Db, d: Db) {
    && FoundKept(db, d)
    && (forall r | r in d.versions :: r in db.versions || !r.promoted)
  }

  lemma TidyGrows(a: Db, b: Db)
    requires Tidy(a) && a.versions == b.versions && a.dependencies == b.dependencies && a.modules.Keys <= b.modules.Keys
    ensures Tidy(b)
    ensures forall r :: ReleaseStructure(b, r) == ReleaseStructure(a, r)
  {
    hide FindRow;
    forall r ensures ReleaseStructure(b, r) == ReleaseStructure(a, r) {
      assert DependenciesOf(a, r.moduleId, r.version) == DependenciesOf(b, r.moduleId, r.version);
    }
    forall r | r in b.versions ensures RowHolds(b, r) { assert RowHolds(a, r); }
  }

  lemma StoredElsewhere(a: Db, b: Db, it: ImportItem)
    requires Stored(a, it) && a.versions == b.versions && a.modules == b.modules
    requires forall r :: ReleaseStructure(b, r) == ReleaseStructure(a, r)
    ensures Stored(b, it)
  {
    hide ReleaseStructure, FindRow;
  }

  lemma LoadLoads(db: Db, ms: seq<ModuleDoc>)
    requires Tidy(db) && Load(db, ms).Ok?
    ensures Loaded(db, Load(db, ms).value.0, ms)
    ensures |Load(db, ms).value.0.versions| == |db.versions| + Load(db, ms).value.1
  {
    hide AddPublishers, AddModules, AddItems, AddPointings, Tidy, Stored, ImportItems, Pointings, ReleaseStructure,
      FindRow, Sets;
    var a := AddPublishers(db, ms).value;
    var b := AddModules(a, ms).value;
    var c := AddItems(b, ImportItems(ms)).value.0;
    var d := Load(db, ms).value.0;
    AddPublishersKeep(db, ms);
    AddModulesKeep(a, ms);
    TidyGrows(db, b);
    AddItemsKeep(b, ImportItems(ms));
    AddPointingsKeep(c, Pointings(IndexEntries(ms)));
    TidyGrows(c, d);
    forall it | it in ImportItems(ms) ensures Stored(d, it) { StoredElsewhere(c, d, it); }
    assert FoundKept(b, c);
    assert VersionsKept(db, d);
  }

  // ----- Repeating an import -----

  /** The same source, imported again, inserts nothing and leaves every table as it is. */
  lemma ImportAgain(db: Db, ms: seq<ModuleDoc>)
    requires Inv(db) && Import(db, ms).Ok?
    ensures var d := Import(db, ms).value.0; Import(d, ms) == Ok((d, 0))
  {
    hide RowsWell, PointersAgree, PointersJoin, EventHolds, UniqueEvents, PromotedRecorded, Load, Tidy, ProjectV1,
      ChannelTargets, Expected, ExpectedChannels, Stored, ImportItems, Pointings, Extends, Sets;
    InvTidy(db);
    LoadLoads(db, ms);
    var d := Import(db, ms).value.0;
    LoadedIsNoOp(db, d, ms);
  }

  lemma InvTidy(db: Db)
    requires Inv(db)
    ensures Tidy(db)
  {}

  lemma LoadedIsNoOp(db: Db, d: Db, ms: seq<ModuleDoc>)
    requires Loaded(db, d, ms)
    ensures Load(d, ms) == Ok((d, 0))
  {
    hide AddPublishers, AddModules, AddItems, AddPointings, Tidy, Stored, ImportItems, Pointings, Extends, Sets,
      VersionsKept;
    AddPublishersNoOp(d, ms);
    AddModulesNoOp(d, ms);
    AddItemsNoOp(d, ImportItems(ms));
    AddPointingsNoOp(d, Pointings(IndexEntries(ms)));
  }

  // ----- What parity adds -----

  ghost predicate Parity(d: Db, ms: seq<ModuleDoc>) {
    ProjectV1(d) == Expected(ms) && ChannelTargets(d) == ExpectedChannels(ms)
  }

  lemma ParityOf(d: Db, ms: seq<ModuleDoc>, id: string)
    requires Tidy(d) && Parity(d, ms)
    ensures id in PublishedIds(d) <==> id in Ids(ms)
    ensures id in PublishedIds(d) ==> id in d.modules && Project(d, id) == CanonicalModule(DocOf(ms, id)).versions
    ensures ChannelMap(d, id) == if id in Ids(ms) then ChannelsOf(DocOf(ms, id).versions) else map[]
  {
    hide Project, CanonicalModule, ChannelsOf, DocOf, UniqueRows, DependenciesOwned, ReleaseStructure, ChannelMap;
    if id in PublishedIds(d) {
      var r :| r in d.versions && r.moduleId == id;
      assert RowHolds(d, r);
      assert id in ProjectV1(d);
      assert ProjectV1(d)[id].versions == Project(d, id);
    }
    if id in Ids(ms) {
      assert id in Expected(ms);
      assert id in ExpectedChannels(ms);
      assert ChannelTargets(d)[id] == ChannelMap(d, id);
    } else {
      assert id !in ChannelTargets(d);
      NotPointed(d, id);
    }
  }

  lemma NotPointed(d: Db, id: string)
    requires id !in PointedIds(d)
    ensures ChannelMap(d, id) == map[]
  {
    hide FindRow;
    assert forall k | k in d.channels && k.1 in ChannelMap(d, k.0) :: k.0 in PointedIds(d);
    forall c: Channel ensures c !in ChannelMap(d, id) {
      var k := (id, c);
      assert k.0 == id && k.1 == c;
    }
  }

  /** Parity fixes the stored order: every row stands at its canonical position. */
  lemma ParityDense(db: Db, d: Db, ms: seq<ModuleDoc>, id: string)
    requires Loaded(db, d, ms) && Parity(d, ms)
    ensures DenseOrder(d, id)
  {
    hide Parity, Project, CanonicalModule, PointsAs, Names, Registers, VersionsKept, ReleaseStructure, ImportItems,
      Pointings, FindRow;
    ParityOf(d, ms, id);
    PublishedHasRow(d, id);
    var rows := RowsOf(d, id);
    SortPermutes(Filter(d.versions, OfModule(id)));
    forall i | 0 <= i < |rows| ensures rows[i].order == i {
      assert rows[i] in rows;
      assert rows[i] in Filter(d.versions, OfModule(id));
      RowAtPosition(d, ms, id, i);
    }
  }

  lemma RowAtPosition(d: Db, ms: seq<ModuleDoc>, id: string, i: nat)
    requires UniqueRows(d) && forall it | it in ImportItems(ms) :: Stored(d, it)
    requires id in Ids(ms) && Project(d, id) == CanonicalModule(DocOf(ms, id)).versions
    requires i < |RowsOf(d, id)|
    ensures RowsOf(d, id)[i].order == i && !RowsOf(d, id)[i].promoted
  {
    hide FindRow, CanonicalModule, ImportItems, ValidSingle;
    var row := RowsOf(d, id)[i];
    SortPermutes(Filter(d.versions, OfModule(id)));
    assert row in RowsOf(d, id);
    ItemAt(ms, DocOf(ms, id), i);
    assert Project(d, id)[i] == ReleaseStructure(d, row);
    FindRowUnique(d.versions, row);
  }

  lemma ParityPointersAgree(d: Db, ms: seq<ModuleDoc>, id: string)
    requires Tidy(d) && Parity(d, ms)
    ensures PointersAgree(d, id)
  {
    hide Parity, ChannelMap, ChannelsOf, DocOf, Tidy, ReleaseStructure, RowsOf;
    ParityOf(d, ms, id);
    if id in Ids(ms) {
      CanonicalKeepsChannels(DocOf(ms, id));
    } else {
      PublishedHasRow(d, id);
      NoReleases(d, id);
    }
  }

  lemma NoReleases(d: Db, id: string)
    requires Filter(d.versions, OfModule(id)) == []
    ensures ChannelsOf(Project(d, id)) == map[]
  {
    forall c: Channel ensures c !in ChannelsOf([]) { CurrentOf([], c); }
    assert Project(d, id) == [];
  }

  lemma LoadedJoins(db: Db, d: Db, ms: seq<ModuleDoc>)
    requires PointersJoin(db) && Loaded(db, d, ms)
    ensures PointersJoin(d)
  {
    hide Tidy, Names, Registers, ReleaseStructure, Pointings, ImportItems, FindRow, IndexEntries, ValidSingle;
    forall k | k in d.channels ensures k.0 in d.modules && FindRow(d.versions, k.0, d.channels[k].version).Some? {
      if k !in db.channels {
        var p :| p in Pointings(IndexEntries(ms)) && k == (p.id, p.channel) && d.channels[k] == Pointer(p.version, 1);
        PointingIn(ms, p);
        var m :| m in ms && Points(EntryOf(m), p);
        CurrentIsStored(d, ms, m, p.channel);
      }
    }
  }

  lemma CurrentIsStored(d: Db, ms: seq<ModuleDoc>, m: ModuleDoc, c: Channel)
    requires m in ms && c in ChannelsOf(m.versions) && forall it | it in ImportItems(ms) :: Stored(d, it)
    ensures var t := ChannelsOf(m.versions)[c];
            var row := FindRow(d.versions, m.id, t.version);
            m.id in d.modules && row.Some? && t == TargetOf(Current(m.versions, c).value)
            && Current(m.versions, c).value in m.versions
  {
    hide ReleaseStructure, ImportItems, FindRow, Current, ValidSingle;
    CurrentDominates(m.versions, c);
    var r := Current(m.versions, c).value;
    ReleaseLessIsWeakOrder();
    SortSorts(m.versions, ReleaseLess);
    assert r in multiset(CanonicalModule(m).versions);
    var i :| 0 <= i < |CanonicalModule(m).versions| && CanonicalModule(m).versions[i] == r;
    ItemAt(ms, m, i);
  }

  // ----- The invariant -----

  lemma NoneRecorded(db: Db)
    requires PromotedRecorded(db) && db.events == []
    ensures forall r | r in db.versions :: !r.promoted
  {
    forall r | r in db.versions ensures !r.promoted {
      assert EventOfVersion([], r.moduleId, r.version).None?;
    }
  }

  lemma ParityRowsWell(db: Db, d: Db, ms: seq<ModuleDoc>)
    requires Loaded(db, d, ms) && Parity(d, ms)
    ensures RowsWell(d)
  {
    hide Loaded, Parity, RowHolds, UniqueRows, DependenciesOwned, DenseOrder;
    LoadedTidy(db, d, ms);
    forall id ensures DenseOrder(d, id) { ParityDense(db, d, ms, id); }
  }

  lemma LoadedTidy(db: Db, d: Db, ms: seq<ModuleDoc>)
    requires Loaded(db, d, ms)
    ensures Tidy(d) && VersionsKept(db, d) && d.events == db.events
  {}

  lemma ParityPublished(db: Db, d: Db, ms: seq<ModuleDoc>)
    requires ImportedPublished(db) && Tidy(db) && Loaded(db, d, ms) && Parity(d, ms)
    requires forall r | r in d.versions :: !r.promoted
    ensures ImportedPublished(d)
  {
    hide Parity, Names, Registers, Stored, ReleaseStructure, Pointings, ImportItems, IndexEntries, PointsAs, Sets,
      FindRow;
    forall id | id in d.modules ensures exists r :: r in d.versions && r.moduleId == id && !r.promoted {
      if id in Ids(ms) {
        ParityOf(d, ms, id);
      } else {
        var r :| r in db.versions && r.moduleId == id && !r.promoted;
        FindRowUnique(db.versions, r);
        FindRowKey(d.versions, id, r.version);
      }
    }
  }

  /** An import into tables without promotions keeps the invariant. */
  lemma ImportKeepsInv(db: Db, ms: seq<ModuleDoc>)
    requires Inv(db) && db.events == [] && Import(db, ms).Ok?
    ensures Inv(Import(db, ms).value.0)
  {
    hide Load, RowsWell, PointersAgree, PointersJoin, EventHolds, Tidy, Loaded, ProjectV1, ChannelTargets, Expected,
      ExpectedChannels, FoundKept, ImportedPublished;
    var d := Import(db, ms).value.0;
    InvTidy(db);
    LoadLoads(db, ms);
    LoadedTidy(db, d, ms);
    assert Parity(d, ms);
    ParityRowsWell(db, d, ms);
    forall id ensures PointersAgree(d, id) { ParityPointersAgree(d, ms, id); }
    LoadedJoins(db, d, ms);
    NoneRecorded(db);
    ParityPublished(db, d, ms);
  }

  lemma InRowsOf(d: Db, id: string, row: VersionRow)
    requires row in d.versions && row.moduleId == id
    ensures row in RowsOf(d, id)
  {
    SortPermutes(Filter(d.versions, OfModule(id)));
  }
}

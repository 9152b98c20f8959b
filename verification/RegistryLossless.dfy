/**
 A valid registry loads into an empty database without loss: both parity checks pass, and
 only an inconsistent publisher name or a missing dependency refuses the import.
 */
module RegistryLossless {
  import opened Immutability
  import opened RegistryDocuments
  import opened RegistryImport
  import opened RegistryImportLaws
  import opened RegistryInvariant
  import opened RegistryLoading
  import opened RegistryRepository
  import opened RegistryRows
  import opened RegistryTables
  import opened SemVer
  import opened StableSort
  import opened Wrappers

  // ----- The loaded order of one module -----

  function ReleasesIn(items: seq<ImportItem>, id: string): seq<Release> {
    if items == [] then []
    else
      var last := items[|items| - 1];
      ReleasesIn(items[..|items| - 1], id) + if last.id == id then [last.release] else []
  }

  lemma {:induction false} ReleasesInAppend(a: seq<ImportItem>, b: seq<ImportItem>, id: string)
    ensures ReleasesIn(a + b, id) == ReleasesIn(a, id) + ReleasesIn(b, id)
  {
    if b == [] {
      assert a + b == a;
    } else {
      var k := |b| - 1;
      ReleasesInAppend(a, b[..k], id);
      assert (a + b)[..|a + b| - 1] == a + b[..k];
    }
  }

  lemma {:induction false} ReleasesInModule(m: ModuleDoc, k: nat, id: string)
    requires k <= |ModuleItems(m)|
    ensures ReleasesIn(ModuleItems(m)[..k], id) == if id == m.id then CanonicalModule(m).versions[..k] else []
  {
    hide CanonicalModule;
    if k > 0 {
      ReleasesInModule(m, k - 1, id);
      assert ModuleItems(m)[..k][..k - 1] == ModuleItems(m)[..k - 1];
      assert CanonicalModule(m).versions[..k] == CanonicalModule(m).versions[..k - 1]
             + [CanonicalModule(m).versions[k - 1]];
    }
  }

  lemma ReleasesInAll(m: ModuleDoc, id: string)
    ensures ReleasesIn(ModuleItems(m), id) == if id == m.id then CanonicalModule(m).versions else []
  {
    ReleasesInModule(m, |ModuleItems(m)|, id);
    assert ModuleItems(m)[..|ModuleItems(m)|] == ModuleItems(m);
    assert CanonicalModule(m).versions[..|CanonicalModule(m).versions|] == CanonicalModule(m).versions;
  }

  lemma {:induction false} ReleasesInImport(ms: seq<ModuleDoc>, id: string)
    requires UniqueIds(ms)
    ensures ReleasesIn(ImportItems(ms), id) == if id in Ids(ms) then CanonicalModule(DocOf(ms, id)).versions else []
  {
    if ms != [] {
      hide CanonicalModule, ReleasesIn, ModuleItems;
      var k := |ms| - 1;
      ReleasesInImport(ms[..k], id);
      ReleasesInAppend(ImportItems(ms[..k]), ModuleItems(ms[k]), id);
      ReleasesInAll(ms[k], id);
      IdsLast(ms);
    }
  }

  lemma IdsLast(ms: seq<ModuleDoc>)
    requires ms != [] && UniqueIds(ms)
    ensures Ids(ms) == Ids(ms[..|ms| - 1]) + {ms[|ms| - 1].id} && ms[|ms| - 1].id !in Ids(ms[..|ms| - 1])
  {
    assert ms == ms[..|ms| - 1] + [ms[|ms| - 1]];
  }

  /** Each item takes the next place of its module and names a version not yet taken. */
  ghost predicate NextInLine(items: seq<ImportItem>, k: nat)
    requires k < |items|
  {
    var before := ReleasesIn(items[..k], items[k].id);
    && items[k].position == |before|
    && (forall r | r in before :: r.version != items[k].release.version)
    && ValidSingle(items[k].id, items[k].release)
  }

  ghost predicate InLine(items: seq<ImportItem>) {
    forall k: nat | k < |items| :: NextInLine(items, k)
  }

  lemma InsertHolds(x: Release, s: seq<Release>)
    ensures forall y :: y in Insert(x, s, ReleaseLess) <==> y == x || y in s
  {
    InsertPermutes(x, s, ReleaseLess);
    forall y ensures y in Insert(x, s, ReleaseLess) <==> y == x || y in s {
      assert y in multiset(Insert(x, s, ReleaseLess)) <==> y in multiset(s) + multiset{x};
    }
  }

  lemma {:induction false} InsertKeepsVersions(x: Release, s: seq<Release>)
    requires UniqueVersions(s) && forall y | y in s :: y.version != x.version
    ensures UniqueVersions(Insert(x, s, ReleaseLess))
  {
    if s != [] && ReleaseLess(s[0], x) {
      hide ReleaseLess;
      InsertKeepsVersions(x, s[1..]);
      var t := Insert(x, s[1..], ReleaseLess);
      assert forall i | 0 < i < |s| :: s[i].version != s[0].version;
      forall j | 0 <= j < |t| ensures t[j].version != s[0].version { InsertMember(x, s[1..], ReleaseLess, j); }
    }
  }

  lemma {:induction false} SortKeepsVersions(s: seq<Release>)
    requires UniqueVersions(s)
    ensures UniqueVersions(Sort(s, ReleaseLess))
    ensures forall y :: y in Sort(s, ReleaseLess) <==> y in s
  {
    if s != [] {
      SortKeepsVersions(s[1..]);
      assert s == [s[0]] + s[1..];
      assert forall i | 0 < i < |s| :: s[i].version != s[0].version;
      InsertHolds(s[0], Sort(s[1..], ReleaseLess));
      InsertKeepsVersions(s[0], Sort(s[1..], ReleaseLess));
    }
  }

  lemma ModuleInLine(m: ModuleDoc, i: nat)
    requires ValidModule(m) && i < |CanonicalModule(m).versions|
    ensures ValidSingle(m.id, CanonicalModule(m).versions[i])
    ensures forall r | r in CanonicalModule(m).versions[..i] :: r.version != CanonicalModule(m).versions[i].version
  {
    SortKeepsVersions(m.versions);
    assert CanonicalModule(m).versions[i] in m.versions;
  }

  lemma {:induction false} ImportInLine(ms: seq<ModuleDoc>)
    requires ValidRegistry(ms)
    ensures InLine(ImportItems(ms))
  {
    hide NextInLine, ValidModule, CanonicalModule;
    if ms != [] {
      var n := |ms| - 1;
      ImportInLine(ms[..n]);
      var done, items := ImportItems(ms[..n]), ModuleItems(ms[n]);
      assert ms[n].id !in Ids(ms[..n]);
      ReleasesInImport(ms[..n], ms[n].id);
      forall k: nat | k < |done + items| ensures NextInLine(done + items, k) {
        if k < |done| {
          assert (done + items)[..k] == done[..k];
          SameLine(done, items, k);
        } else {
          NewInLine(done, ms[n], k - |done|);
        }
      }
    }
  }

  lemma SameLine(done: seq<ImportItem>, items: seq<ImportItem>, k: nat)
    requires k < |done| && NextInLine(done, k)
    ensures NextInLine(done + items, k)
  {
    assert (done + items)[..k] == done[..k];
  }

  lemma NewInLine(done: seq<ImportItem>, m: ModuleDoc, i: nat)
    requires ValidModule(m) && i < |ModuleItems(m)| && ReleasesIn(done, m.id) == []
    ensures NextInLine(done + ModuleItems(m), |done| + i)
  {
    hide CanonicalModule, ValidModule, ValidSingle;
    var items := ModuleItems(m);
    ModuleInLine(m, i);
    assert (done + items)[..|done| + i] == done + items[..i];
    ReleasesInAppend(done, items[..i], m.id);
    ReleasesInModule(m, i, m.id);
  }

  // ----- Insertion into a database without versions -----

  ghost predicate DependenciesKnown(items: seq<ImportItem>, ids: set<string>) {
    forall it | it in items :: it.release.requiresModules.Keys <= ids
  }

  ghost predicate Blank(b: Db) { b.versions == [] && b.dependencies == map[] }

  lemma BlankIsWell(b: Db)
    requires Blank(b)
    ensures RowsWell(b)
    ensures forall id :: Project(b, id) == []
  {}

  ghost predicate FreshlyLoaded(b: Db, d: Db, items: seq<ImportItem>) {
    RowsWell(d) && SameFrame(b, d) && forall id :: Project(d, id) == ReleasesIn(items, id)
  }

  lemma NextIsFree(d: Db, items: seq<ImportItem>, k: nat)
    requires k < |items| && NextInLine(items, k) && RowsWell(d)
    requires Project(d, items[k].id) == ReleasesIn(items[..k], items[k].id)
    ensures FindRow(d.versions, items[k].id, items[k].release.version).None?
    ensures items[k].position == |Filter(d.versions, OfModule(items[k].id))|
  {
    hide RowsWell, ReleasesIn, ValidSingle;
    var it := items[k];
    if FindRow(d.versions, it.id, it.release.version).Some? { FoundIsProjected(d, it.id, it.release.version); }
  }

  lemma FoundIsProjected(d: Db, id: string, v: Version)
    requires FindRow(d.versions, id, v).Some?
    ensures exists r :: r in Project(d, id) && r.version == v
  {
    var row := FindRow(d.versions, id, v).value;
    InRowsOf(d, id, row);
    var i :| 0 <= i < |RowsOf(d, id)| && RowsOf(d, id)[i] == row;
    assert Project(d, id)[i] in Project(d, id);
  }

  /** One more item: accepted exactly when its dependencies are registered, and appended to its module. */
  lemma FreshStep(b: Db, d: Db, items: seq<ImportItem>, k: nat)
    requires k < |items| && NextInLine(items, k) && FreshlyLoaded(b, d, items[..k])
    requires items[k].id in b.modules
    ensures AddItem(d, items[k]).Ok? <==> items[k].release.requiresModules.Keys <= b.modules.Keys
    ensures AddItem(d, items[k]).Ok? ==>
              AddItem(d, items[k]).value.1 && FreshlyLoaded(b, AddItem(d, items[k]).value.0, items[..k + 1])
  {
    hide AddItem, FindRow, Project, DependencyRows, ReleaseStructure, DenseOrder, RowHolds, UniqueRows,
      HistoricalProvenance, ValidSingle, RowOf;
    var it := items[k];
    NextIsFree(d, items, k);
    assert ValidSingle(it.id, it.release);
    FreshItemInserts(d, it);
    if AddItem(d, it).Ok? {
      AddItemInserts(d, it);
      var d', row := AddItem(d, it).value.0, ItemRow(d, it);
      RowOfKeys(it.id, it.release, it.position, HistoricalProvenance(d.modules[it.id], it.release));
      InsertKeepsRows(d, d', row, it.release);
      assert items[..k + 1][..k] == items[..k];
      InsertProjects(d, d', row, it.release);
      forall id ensures Project(d', id) == ReleasesIn(items[..k + 1], id) {
        if id != it.id { InsertLeavesProjection(d, d', row, it.release, id); }
      }
    }
  }

  lemma RowOfKeys(id: string, r: Release, n: nat, e: Provenance)
    ensures var row := RowOf(id, r, n, false, e); row.moduleId == id && row.version == r.version && row.order == n
  {}

  lemma {:induction false} AddFreshItems(b: Db, items: seq<ImportItem>, k: nat)
    requires Blank(b) && InLine(items) && k <= |items|
    requires forall it | it in items :: it.id in b.modules
    ensures AddItems(b, items[..k]).Ok? <==> DependenciesKnown(items[..k], b.modules.Keys)
    ensures AddItems(b, items[..k]).Ok? ==>
              FreshlyLoaded(b, AddItems(b, items[..k]).value.0, items[..k]) && AddItems(b, items[..k]).value.1 == k
  {
    hide AddItem, FreshlyLoaded, NextInLine;
    if k == 0 {
      BlankLoaded(b);
    } else {
      AddFreshItems(b, items, k - 1);
      assert items[..k][..k - 1] == items[..k - 1];
      assert items[..k] == items[..k - 1] + [items[k - 1]];
      assert items[k - 1] in items;
      if AddItems(b, items[..k - 1]).Ok? {
        FreshStep(b, AddItems(b, items[..k - 1]).value.0, items, k - 1);
      }
    }
  }

  lemma BlankLoaded(b: Db)
    requires Blank(b)
    ensures FreshlyLoaded(b, b, [])
  {
    hide RowsWell, Project;
    BlankIsWell(b);
  }

  // ----- Pointers -----

  lemma IndexPointingsAgree(ms: seq<ModuleDoc>, p: Pointing, q: Pointing)
    requires UniqueIds(ms) && p.id == q.id && p.channel == q.channel
    requires p in Pointings(IndexEntries(ms)) && q in Pointings(IndexEntries(ms))
    ensures p.version == q.version
  {
    hide ChannelsOf, Pointings, IndexEntries;
    PointingIn(ms, p);
    PointingIn(ms, q);
    var m :| m in ms && Points(EntryOf(m), p);
    var n :| n in ms && Points(EntryOf(n), q);
    DocUnique(ms, m, n);
  }

  lemma DocUnique(ms: seq<ModuleDoc>, m: ModuleDoc, n: ModuleDoc)
    requires UniqueIds(ms) && m in ms && n in ms && m.id == n.id
    ensures m == n
  {}

  lemma IndexPointersLoad(c: Db, ms: seq<ModuleDoc>)
    requires UniqueIds(ms) && c.channels == map[]
    ensures AddPointings(c, Pointings(IndexEntries(ms))).Ok?
  {
    hide Pointings, IndexEntries;
    var ps := Pointings(IndexEntries(ms));
    forall p, q | p in ps && q in ps && p.id == q.id && p.channel == q.channel ensures p.version == q.version {
      IndexPointingsAgree(ms, p, q);
    }
    AddPointingsAccepts(c, ps);
  }

  // ----- Parity -----

  lemma LoadedChannelMap(d: Db, ms: seq<ModuleDoc>, id: string)
    requires UniqueIds(ms) && Loaded(EMPTY, d, ms) && id in Ids(ms) && ValidModule(DocOf(ms, id))
    ensures ChannelMap(d, id) == ChannelsOf(DocOf(ms, id).versions)
  {
    hide Tidy, VersionsKept, ChannelsOf, FindRow, ReleaseStructure, Pointings, IndexEntries, ImportItems, Current,
      Names, Registers, TargetOf, ValidModule;
    var m := DocOf(ms, id);
    forall c: Channel ensures c in ChannelMap(d, id) <==> c in ChannelsOf(m.versions)
      ensures c in ChannelsOf(m.versions) ==> ChannelMap(d, id)[c] == ChannelsOf(m.versions)[c]
    {
      if c in ChannelsOf(m.versions) {
        var p := Pointing(id, c, ChannelsOf(m.versions)[c].version);
        PointingIn(ms, p);
        assert Points(EntryOf(m), p);
        assert PointsAs(d, p);
        CurrentDigest(d, ms, m, c);
      } else if (id, c) in d.channels {
        NothingElsePoints(d, ms, m, c);
      }
    }
  }

  lemma NothingElsePoints(d: Db, ms: seq<ModuleDoc>, m: ModuleDoc, c: Channel)
    requires UniqueIds(ms) && m in ms && Sets(d, (m.id, c), Pointings(IndexEntries(ms)))
    ensures c in ChannelsOf(m.versions)
  {
    hide ChannelsOf, Pointings, IndexEntries;
    var p :| p in Pointings(IndexEntries(ms)) && (m.id, c) == (p.id, p.channel)
      && d.channels[(m.id, c)] == Pointer(p.version, 1);
    PointingIn(ms, p);
    var n :| n in ms && Points(EntryOf(n), p);
    DocUnique(ms, m, n);
  }

  lemma CurrentDigest(d: Db, ms: seq<ModuleDoc>, m: ModuleDoc, c: Channel)
    requires m in ms && c in ChannelsOf(m.versions) && forall it | it in ImportItems(ms) :: Stored(d, it)
    requires ValidModule(m)
    ensures var t := ChannelsOf(m.versions)[c];
            var row := FindRow(d.versions, m.id, t.version);
            row.Some? && t == Target(t.version, row.value.digest)
  {
    hide ImportItems, FindRow, Current, ValidSingle, DependenciesOf;
    CurrentDominates(m.versions, c);
    var r := Current(m.versions, c).value;
    SortKeepsVersions(m.versions);
    assert r in CanonicalModule(m).versions;
    var i :| 0 <= i < |CanonicalModule(m).versions| && CanonicalModule(m).versions[i] == r;
    ItemAt(ms, m, i);
  }

  lemma LoadedDocument(d: Db, ms: seq<ModuleDoc>, id: string)
    requires id in Ids(ms) && id in d.modules && Project(d, id) == CanonicalModule(DocOf(ms, id)).versions
    requires Names(d, DocOf(ms, id)) && Registers(d, DocOf(ms, id))
    ensures StructureOf(d, id, Project(d, id)) == CanonicalModule(DocOf(ms, id))
  {
    hide Project;
  }

  lemma LoadedProjection(d: Db, ms: seq<ModuleDoc>)
    requires ValidRegistry(ms) && Loaded(EMPTY, d, ms)
    requires forall id :: Project(d, id) == if id in Ids(ms) then CanonicalModule(DocOf(ms, id)).versions else []
    ensures ProjectV1(d) == Expected(ms)
  {
    hide Tidy, VersionsKept, Project, CanonicalModule, StructureOf, Pointings, IndexEntries, ImportItems, Stored,
      ValidModule, Sets;
    forall id ensures id in d.modules && id in PublishedIds(d) <==> id in Ids(ms) {
      PublishedHasRow(d, id);
      ProjectSize(d, id);
      if id in Ids(ms) { CanonicalSize(DocOf(ms, id)); }
    }
    forall id | id in Ids(ms) ensures StructureOf(d, id, Project(d, id)) == CanonicalModule(DocOf(ms, id)) {
      LoadedDocument(d, ms, id);
    }
  }

  lemma ProjectSize(d: Db, id: string)
    ensures |Project(d, id)| == |Filter(d.versions, OfModule(id))|
  {}

  lemma CanonicalSize(m: ModuleDoc)
    requires ValidModule(m)
    ensures |CanonicalModule(m).versions| > 0
  {}

  lemma LoadedTargets(d: Db, ms: seq<ModuleDoc>)
    requires ValidRegistry(ms) && Loaded(EMPTY, d, ms)
    ensures ChannelTargets(d) == ExpectedChannels(ms)
  {
    hide Loaded, ChannelMap, ChannelsOf, ValidModule;
    forall id | id in Ids(ms) ensures id in PointedIds(d) && ChannelMap(d, id) == ChannelsOf(DocOf(ms, id).versions) {
      var m := DocOf(ms, id);
      LoadedChannelMap(d, ms, id);
      SomeChannel(m);
      var c :| c in ChannelsOf(m.versions);
      PointedBy(d, id, c);
    }
    forall id | id in PointedIds(d) ensures id in Ids(ms) {
      var k :| k in d.channels && k.1 in ChannelMap(d, k.0) && k.0 == id;
      PointedIsLoaded(d, ms, k);
    }
  }

  lemma SomeChannel(m: ModuleDoc)
    requires ValidModule(m)
    ensures exists c :: c in ChannelsOf(m.versions)
  {
    hide Current;
    var r := m.versions[0];
    CurrentDominates(m.versions, r.channel);
    assert r in m.versions;
    assert r.channel in ChannelsOf(m.versions);
  }

  lemma PointedBy(d: Db, id: string, c: Channel)
    requires c in ChannelMap(d, id)
    ensures id in PointedIds(d)
  {
    hide FindRow;
    var k := (id, c);
    assert k in d.channels && k.1 in ChannelMap(d, k.0);
  }

  lemma PointedIsLoaded(d: Db, ms: seq<ModuleDoc>, k: (string, Channel))
    requires Loaded(EMPTY, d, ms) && k in d.channels
    ensures k.0 in Ids(ms)
  {
    hide Tidy, VersionsKept, Stored, PointsAs, Names, Registers, ChannelsOf, Pointings, IndexEntries, ImportItems;
    var p :| p in Pointings(IndexEntries(ms)) && k == (p.id, p.channel) && d.channels[k] == Pointer(p.version, 1);
    PointingIn(ms, p);
  }

  // ----- The theorem -----

  ghost predicate DependenciesPresent(ms: seq<ModuleDoc>) {
    forall m, r | m in ms && r in m.versions :: r.requiresModules.Keys <= Ids(ms)
  }

  ghost predicate PublishersConsistent(ms: seq<ModuleDoc>) {
    forall m, n | m in ms && n in ms && m.publisherId == n.publisherId :: m.publisherName == n.publisherName
  }

  lemma DependenciesOfItems(ms: seq<ModuleDoc>)
    requires ValidRegistry(ms)
    ensures DependenciesKnown(ImportItems(ms), Ids(ms)) <==> DependenciesPresent(ms)
  {
    forall m | m in ms ensures forall r :: r in CanonicalModule(m).versions <==> r in m.versions {
      SortKeepsVersions(m.versions);
    }
    hide CanonicalModule, ValidModule;
    if DependenciesKnown(ImportItems(ms), Ids(ms)) {
      forall m, r | m in ms && r in m.versions ensures r.requiresModules.Keys <= Ids(ms) {
        var i :| 0 <= i < |CanonicalModule(m).versions| && CanonicalModule(m).versions[i] == r;
        ItemAt(ms, m, i);
      }
    }
    if DependenciesPresent(ms) {
      forall it | it in ImportItems(ms) ensures it.release.requiresModules.Keys <= Ids(ms) {
        ItemIn(ms, it);
        var m :| m in ms && it in ModuleItems(m);
        assert it.release in CanonicalModule(m).versions;
      }
    }
  }

  lemma LoadIntoEmpty(ms: seq<ModuleDoc>)
    requires ValidRegistry(ms)
    ensures Load(EMPTY, ms).Ok? <==> PublishersConsistent(ms) && DependenciesPresent(ms)
    ensures Load(EMPTY, ms).Ok? ==>
              var (d, n) := Load(EMPTY, ms).value;
              && Loaded(EMPTY, d, ms) && n == |ImportItems(ms)|
              && (forall id :: Project(d, id) == if id in Ids(ms) then CanonicalModule(DocOf(ms, id)).versions else [])
  {
    hide AddPublishers, AddModules, AddItems, AddPointings, ImportItems, Pointings, Loaded, InLine, RowsWell, Project,
      CanonicalModule, ValidModule, ReleasesIn, IndexEntries;
    AddPublishersAccepts(EMPTY, ms);
    if PublishersConsistent(ms) {
      AddPublishersKeep(EMPTY, ms);
      var a := AddPublishers(EMPTY, ms).value;
      AddModulesAccepts(a, ms);
      AddModulesKeep(a, ms);
      var b := AddModules(a, ms).value;
      assert b.modules.Keys == Ids(ms);
      ImportInLine(ms);
      forall it | it in ImportItems(ms) ensures it.id in b.modules { ItemOwner(ms, it); }
      AddFreshItems(b, ImportItems(ms), |ImportItems(ms)|);
      assert ImportItems(ms)[..|ImportItems(ms)|] == ImportItems(ms);
      DependenciesOfItems(ms);
      if DependenciesPresent(ms) {
        var c := AddItems(b, ImportItems(ms)).value.0;
        IndexPointersLoad(c, ms);
        EmptyTidy();
        LoadLoads(EMPTY, ms);
        var d := Load(EMPTY, ms).value.0;
        AddPointingsKeep(c, Pointings(IndexEntries(ms)));
        forall id ensures Project(d, id) == if id in Ids(ms) then CanonicalModule(DocOf(ms, id)).versions else [] {
          ReleasesInImport(ms, id);
          SameVersionsProject(c, d, id);
        }
      }
    }
  }

  lemma SameVersionsProject(a: Db, b: Db, id: string)
    requires a.versions == b.versions && a.dependencies == b.dependencies
    ensures Project(a, id) == Project(b, id)
  {
    forall r ensures ReleaseStructure(b, r) == ReleaseStructure(a, r) {
      assert DependenciesOf(a, r.moduleId, r.version) == DependenciesOf(b, r.moduleId, r.version);
    }
  }

  lemma ItemOwner(ms: seq<ModuleDoc>, it: ImportItem)
    requires it in ImportItems(ms)
    ensures it.id in Ids(ms)
  {
    hide ImportItems, CanonicalModule;
    ItemIn(ms, it);
  }

  lemma EmptyTidy()
    ensures Tidy(EMPTY)
  {}

  lemma EmptyInv()
    ensures Inv(EMPTY)
  {
    forall id ensures PointersAgree(EMPTY, id) {
      NoReleases(EMPTY, id);
      assert ChannelMap(EMPTY, id) == map[];
    }
  }

  /**
   A valid registry imports into an empty database if and only if publisher names are
   consistent and dependencies present: neither parity check can fail. Every release becomes
   one version, and each module reads back as its canonical document, with the pointers of
   build_index, equal-precedence builds included.
   */
  lemma ImportIntoEmpty(ms: seq<ModuleDoc>)
    requires ValidRegistry(ms)
    ensures Import(EMPTY, ms).Ok? <==> PublishersConsistent(ms) && DependenciesPresent(ms)
    ensures Import(EMPTY, ms).Ok? ==>
              var (d, n) := Import(EMPTY, ms).value;
              && n == |d.versions| == |ImportItems(ms)|
              && ProjectV1(d) == Expected(ms) && ChannelTargets(d) == ExpectedChannels(ms)
              && Inv(d)
  {
    hide Load, Loaded, ProjectV1, ChannelTargets, Expected, ExpectedChannels, Inv, Project, ImportItems,
      CanonicalModule, ValidModule;
    LoadIntoEmpty(ms);
    if Load(EMPTY, ms).Ok? {
      var d := Load(EMPTY, ms).value.0;
      LoadedProjection(d, ms);
      LoadedTargets(d, ms);
      EmptyTidy();
      EmptyInv();
      LoadLoads(EMPTY, ms);
      ImportKeepsInv(EMPTY, ms);
    }
  }

  /** The row of an imported release: every column from the source, the evidence unknown but for where it comes from. */
  ghost predicate IsImported(row: VersionRow, m: ModuleDoc, r: Release, position: nat) {
    && row.moduleId == m.id && row.version == r.version && row.channel == r.channel && row.order == position
    && row.digest == r.sha256 && row.url == r.url && row.bundleFormat == r.bundleFormat
    && row.sourceTag == r.sourceTag && row.sourceCommit == r.sourceCommit && row.host == r.host && row.sdk == r.sdk
    && !row.promoted
    && var p := row.provenance;
       && p.sourceRepository == m.sourceRepository && p.sourceTag == r.sourceTag && p.sourceCommit == r.sourceCommit
       && p.builderVersion.None? && p.builderCommit.None? && p.hostCommit.None? && p.reproducible.None?
       && p.hostContract.None? && p.environment.None?
  }

  /** The columns that an import into an empty database stores for a module and for each of its releases. */
  lemma ImportStores(ms: seq<ModuleDoc>, m: ModuleDoc, k: nat)
    requires ValidRegistry(ms) && Import(EMPTY, ms).Ok? && m in ms && k < |CanonicalModule(m).versions|
    ensures var d := Import(EMPTY, ms).value.0;
            && m.publisherId in d.publishers && d.publishers[m.publisherId] == m.publisherName
            && m.id in d.modules
            && var row := d.modules[m.id];
               && row.name == m.name && row.publisherId == m.publisherId && row.classification == m.classification
               && row.license == m.license && row.sourceRepository == m.sourceRepository
               && row.description == m.description && row.homepage == m.homepage
               && row.documentationUrl == m.documentationUrl
    ensures exists row :: row in Import(EMPTY, ms).value.0.versions
                          && IsImported(row, m, CanonicalModule(m).versions[k], k)
  {
    hide Load, ProjectV1, ChannelTargets, Expected, ExpectedChannels, Inv, ImportItems, CanonicalModule, ValidModule,
      Tidy, VersionsKept, Sets, Pointings, FindRow, DependenciesOf, ValidSingle;
    var d := Import(EMPTY, ms).value.0;
    EmptyTidy();
    LoadLoads(EMPTY, ms);
    ItemAt(ms, m, k);
    assert Names(d, m) && Registers(d, m);
    var it := ImportItem(m.id, CanonicalModule(m).versions[k], k);
    assert Stored(d, it);
    assert IsImported(FindRow(d.versions, it.id, it.release.version).value, m, it.release, k);
  }
}

/**
 The relational registry: its tables as values, the records read back from them, and the
 write sets that a transaction applies to them.
 */
module RegistryTables {
  import opened Digests
  import opened RegistryDocuments
  import opened SemVer
  import opened StableSort
  import opened Wrappers

  datatype ModuleRow = ModuleRow(
    name: string, publisherId: string, classification: Classification, license: string,
    sourceRepository: string, description: Option<string>, homepage: Option<string>,
    documentationUrl: Option<string>)

  /** NULL columns are None: an imported artifact has neither size nor locator. */
  datatype ArtifactRow = ArtifactRow(byteSize: Option<nat>, locator: Option<string>)

  datatype Provenance = Provenance(
    sourceRepository: string, sourceTag: Option<string>, sourceCommit: string,
    builderVersion: Option<string>, builderCommit: Option<string>, hostCommit: Option<string>,
    reproducible: Option<bool>, hostContract: Option<string>, environment: Option<string>)

  /** promoted: published_at is not NULL. The provenance row, one per version, is inlined. */
  datatype VersionRow = VersionRow(
    moduleId: string, version: Version, digest: Digest, url: string, order: nat,
    bundleFormat: nat, sourceTag: Option<string>, sourceCommit: string, host: string, sdk: string,
    channel: Channel, promoted: bool, provenance: Provenance)

  datatype Pointer = Pointer(version: Version, revision: nat)

  // ----- What a promotion binds and records -----

  datatype Candidate = Candidate(
    moduleId: string, version: Version, plannedChannel: Channel, bundleSha256: Digest,
    bundleFormat: nat, sourceRepository: string, classification: Classification,
    sourceCommit: string, sourceTag: Option<string>, host: string, sdk: string,
    requiresModules: map<string, string>, builderVersion: string, builderCommit: string,
    hostCommit: Option<string>, environment: Option<string>)

  /** The digest of a candidate document, collision-free like every digest here. */
  datatype CandidateDigest = CandidateSha256(preimage: Candidate)

  datatype PromotionIntent = PromotionIntent(
    moduleId: string, version: Version, approvalPr: nat, candidateSha256: CandidateDigest,
    bundleSha256: Digest, channel: Channel, expectedRevision: int, key: string)

  datatype BoundIntent = BoundIntent(
    intent: PromotionIntent, approvalReference: string, approvalIdentity: string,
    mergeCommit: string, candidate: Candidate)

  datatype Status = Published | AlreadyPublished

  datatype PromotionResult = PromotionResult(
    promotionId: string, moduleId: string, version: Version, channel: Channel,
    previous: Option<Version>, target: Version, revision: nat, sha256: Digest, url: string,
    locator: string, byteSize: nat, status: Status)

  datatype Event = Event(
    key: string, moduleId: string, version: Version, channel: Channel,
    previous: Option<Version>, intent: BoundIntent, result: PromotionResult)

  // ----- Tables -----

  datatype Db = Db(
    publishers: map<string, string>,
    modules: map<string, ModuleRow>,
    artifacts: map<Digest, ArtifactRow>,
    versions: seq<VersionRow>,
    dependencies: map<(string, Version, string), string>,
    channels: map<(string, Channel), Pointer>,
    events: seq<Event>)

  const EMPTY := Db(map[], map[], map[], [], map[], map[], [])

  /**
   One flush. Publishers, modules, versions, dependencies and events are only ever inserted;
   an artifact row may be completed and a pointer moved.
   */
  datatype Write =
    | PublisherWrite(publisherId: string, name: string)
    | ModuleWrite(id: string, moduleRow: ModuleRow)
    | ArtifactWrite(digest: Digest, artifact: ArtifactRow)
    | VersionWrite(row: VersionRow, dependencies: map<(string, Version, string), string>)
    | ChannelWrite(owner: string, channel: Channel, pointer: Pointer)
    | EventWrite(event: Event)

  function Apply(db: Db, w: Write): Db {
    match w
    case PublisherWrite(id, name) => db.(publishers := db.publishers[id := name])
    case ModuleWrite(id, row) => db.(modules := db.modules[id := row])
    case ArtifactWrite(d, row) => db.(artifacts := db.artifacts[d := row])
    case VersionWrite(row, dependencies) =>
      db.(versions := db.versions + [row], dependencies := db.dependencies + dependencies)
    case ChannelWrite(id, c, p) => db.(channels := db.channels[(id, c) := p])
    case EventWrite(e) => db.(events := db.events + [e])
  }

  /** All flushes of a transaction, in order. */
  function ApplyAll(db: Db, log: seq<Write>): Db {
    if log == [] then db else Apply(ApplyAll(db, log[..|log| - 1]), log[|log| - 1])
  }

  lemma ApplyAllNone(db: Db)
    ensures ApplyAll(db, []) == db
  {}

  lemma ApplyAllAppend(db: Db, log: seq<Write>, w: Write)
    ensures ApplyAll(db, log + [w]) == Apply(ApplyAll(db, log), w)
  {
    assert (log + [w])[..|log|] == log;
  }

  // ----- Lookups -----

  function OfModule(id: string): VersionRow -> bool { (r: VersionRow) => r.moduleId == id }

  predicate OrderLess(a: VersionRow, b: VersionRow) { a.order < b.order }

  function FindRow(rows: seq<VersionRow>, id: string, v: Version): (r: Option<VersionRow>)
    ensures r.Some? ==> r.value in rows && r.value.moduleId == id && r.value.version == v
    ensures r.None? ==> forall x | x in rows :: !(x.moduleId == id && x.version == v)
  {
    if rows == [] then None
    else if rows[0].moduleId == id && rows[0].version == v then Some(rows[0])
    else FindRow(rows[1..], id, v)
  }

  lemma {:induction false} FindRowInModule(rows: seq<VersionRow>, id: string, v: Version)
    ensures FindRow(rows, id, v) == FindRow(Filter(rows, OfModule(id)), id, v)
  {
    if rows != [] {
      FindRowInModule(rows[1..], id, v);
      if rows[0].moduleId == id {
        var f := Filter(rows, OfModule(id));
        assert f[1..] == Filter(rows[1..], OfModule(id));
      }
    }
  }

  lemma {:induction false} FindRowAppend(rows: seq<VersionRow>, more: seq<VersionRow>, id: string, v: Version)
    ensures FindRow(rows + more, id, v) ==
            if FindRow(rows, id, v).Some? then FindRow(rows, id, v) else FindRow(more, id, v)
  {
    if rows == [] {
      assert rows + more == more;
    } else {
      assert (rows + more)[1..] == rows[1..] + more;
      FindRowAppend(rows[1..], more, id, v);
    }
  }

  function FindEvent(events: seq<Event>, key: string): (r: Option<Event>)
    ensures r.Some? ==> r.value in events && r.value.key == key
    ensures r.None? ==> forall e | e in events :: e.key != key
  {
    if events == [] then None
    else if events[0].key == key then Some(events[0])
    else FindEvent(events[1..], key)
  }

  function EventOfVersion(events: seq<Event>, id: string, v: Version): (r: Option<Event>)
    ensures r.Some? ==> r.value in events && r.value.moduleId == id && r.value.version == v
    ensures r.None? ==> forall e | e in events :: !(e.moduleId == id && e.version == v)
  {
    if events == [] then None
    else if events[0].moduleId == id && events[0].version == v then Some(events[0])
    else EventOfVersion(events[1..], id, v)
  }

  // ----- Records read back -----

  /** module_structure, with the given releases. */
  function StructureOf(db: Db, id: string, versions: seq<Release>): ModuleDoc
    requires id in db.modules
  {
    var m := db.modules[id];
    ModuleDoc(id, m.name, m.publisherId,
              if m.publisherId in db.publishers then db.publishers[m.publisherId] else "",
              m.classification, m.license, m.sourceRepository, m.description, m.homepage,
              m.documentationUrl, versions)
  }

  function DependenciesOf(db: Db, id: string, v: Version): map<string, string> {
    map k | k in db.dependencies && k.0 == id && k.1 == v :: k.2 := db.dependencies[k]
  }

  /** release_structure */
  function ReleaseStructure(db: Db, r: VersionRow): Release {
    Release(r.version, r.channel, r.url, r.digest, r.bundleFormat, r.sourceCommit, r.sourceTag,
            r.host, r.sdk, DependenciesOf(db, r.moduleId, r.version))
  }

  function Structures(db: Db, rows: seq<VersionRow>): (r: seq<Release>)
    ensures |r| == |rows| && forall i | 0 <= i < |r| :: r[i] == ReleaseStructure(db, rows[i])
  {
    seq(|rows|, i requires 0 <= i < |rows| => ReleaseStructure(db, rows[i]))
  }

  /** The rows of one module by historical_order. */
  function RowsOf(db: Db, id: string): seq<VersionRow> {
    Sort(Filter(db.versions, OfModule(id)), OrderLess)
  }

  /** The projected releases of one module. */
  function Project(db: Db, id: string): seq<Release> { Structures(db, RowsOf(db, id)) }

  function PublishedIds(db: Db): set<string> {
    set r | r in db.versions :: r.moduleId
  }

  /** project_v1: one document for each registered module with a published version. */
  function ProjectV1(db: Db): map<string, ModuleDoc> {
    map id | id in db.modules && id in PublishedIds(db) :: StructureOf(db, id, Project(db, id))
  }

  /** The joined pointers of one module. */
  function ChannelMap(db: Db, id: string): map<Channel, Target> {
    map c: Channel | (id, c) in db.channels && FindRow(db.versions, id, db.channels[(id, c)].version).Some? ::
      Target(db.channels[(id, c)].version, FindRow(db.versions, id, db.channels[(id, c)].version).value.digest)
  }

  /** The modules that have a joined pointer. */
  function PointedIds(db: Db): set<string> {
    set k | k in db.channels && k.1 in ChannelMap(db, k.0) :: k.0
  }

  /** channel_targets */
  function ChannelTargets(db: Db): map<string, map<Channel, Target>> {
    map id | id in PointedIds(db) :: ChannelMap(db, id)
  }

  /** What build_index selects for a projection. */
  function IndexMap(projection: map<string, ModuleDoc>): map<string, map<Channel, Target>> {
    map id | id in projection :: ChannelsOf(projection[id].versions)
  }

  /** validate_v1_representability accepts the state. */
  ghost predicate Representable(db: Db) {
    && (forall id | id in ProjectV1(db) :: ValidModule(ProjectV1(db)[id]))
    && IndexMap(ProjectV1(db)) == ChannelTargets(db)
  }

  // ----- The part of the state that belongs to one module -----

  ghost predicate SamePublisher(a: Db, b: Db, p: string) {
    (p in a.publishers <==> p in b.publishers) && (p in a.publishers ==> a.publishers[p] == b.publishers[p])
  }

  ghost predicate SameSlice(a: Db, b: Db, id: string) {
    && (id in a.modules <==> id in b.modules)
    && (id in a.modules ==> a.modules[id] == b.modules[id] && SamePublisher(a, b, a.modules[id].publisherId))
    && Filter(a.versions, OfModule(id)) == Filter(b.versions, OfModule(id))
    && (forall k: (string, Version, string) | k.0 == id ::
          && (k in a.dependencies <==> k in b.dependencies)
          && (k in a.dependencies ==> a.dependencies[k] == b.dependencies[k]))
    && (forall c: Channel ::
          && ((id, c) in a.channels <==> (id, c) in b.channels)
          && ((id, c) in a.channels ==> a.channels[(id, c)] == b.channels[(id, c)]))
  }

  lemma SliceRelease(a: Db, b: Db, r: VersionRow)
    requires SameSlice(a, b, r.moduleId)
    ensures ReleaseStructure(a, r) == ReleaseStructure(b, r)
  {
    var x, y := DependenciesOf(a, r.moduleId, r.version), DependenciesOf(b, r.moduleId, r.version);
    forall d ensures (d in x <==> d in y) && (d in x ==> x[d] == y[d]) {
      var k := (r.moduleId, r.version, d);
      assert k.0 == r.moduleId && k.1 == r.version && k.2 == d;
      assert d in x <==> k in a.dependencies;
      assert d in y <==> k in b.dependencies;
    }
    assert x == y;
  }

  lemma SliceFindRow(a: Db, b: Db, id: string, v: Version)
    requires SameSlice(a, b, id)
    ensures FindRow(a.versions, id, v) == FindRow(b.versions, id, v)
  {
    FindRowInModule(a.versions, id, v);
    FindRowInModule(b.versions, id, v);
  }

  lemma SliceProjection(a: Db, b: Db, id: string)
    requires SameSlice(a, b, id)
    ensures Project(a, id) == Project(b, id)
    ensures ChannelMap(a, id) == ChannelMap(b, id)
    ensures id in PublishedIds(a) <==> id in PublishedIds(b)
  {
    var rows := RowsOf(a, id);
    SortPermutes(Filter(a.versions, OfModule(id)));
    forall i | 0 <= i < |rows| ensures ReleaseStructure(a, rows[i]) == ReleaseStructure(b, rows[i]) {
      assert rows[i] in rows;
      SliceRelease(a, b, rows[i]);
    }
    forall c: Channel | (id, c) in a.channels { SliceFindRow(a, b, id, a.channels[(id, c)].version); }
    PublishedHasRow(a, id);
    PublishedHasRow(b, id);
  }

  lemma PublishedHasRow(db: Db, id: string)
    ensures id in PublishedIds(db) <==> Filter(db.versions, OfModule(id)) != []
  {
    if id in PublishedIds(db) {
      var r :| r in db.versions && r.moduleId == id;
      assert r in Filter(db.versions, OfModule(id));
    }
    var rows := Filter(db.versions, OfModule(id));
    assert rows != [] ==> rows[0] in rows;
  }

  lemma OrderLessIsWeakOrder()
    ensures WeakOrder(OrderLess)
  {}

  lemma SortPermutes(rows: seq<VersionRow>)
    ensures forall r :: r in Sort(rows, OrderLess) <==> r in rows
  {
    OrderLessIsWeakOrder();
    SortSorts(rows, OrderLess);
    forall r ensures r in Sort(rows, OrderLess) <==> r in rows {
      assert r in multiset(Sort(rows, OrderLess)) <==> r in multiset(rows);
    }
  }

  /** A write to one module leaves the slice of every other module alone. */
  ghost predicate Foreign(w: Write, other: string) {
    match w
    case PublisherWrite(_, _) => false
    case ModuleWrite(id, _) => id != other
    case ArtifactWrite(_, _) => true
    case VersionWrite(row, dependencies) => row.moduleId != other && forall k | k in dependencies :: k.0 != other
    case ChannelWrite(id, _, _) => id != other
    case EventWrite(_) => true
  }

  lemma ForeignKeepsSlice(db: Db, w: Write, other: string)
    requires Foreign(w, other)
    ensures SameSlice(db, Apply(db, w), other)
  {
    if w.VersionWrite? {
      FilterAppend(db.versions, [w.row], OfModule(other));
      FilterNone([w.row], OfModule(other));
      assert Filter(db.versions, OfModule(other)) + [] == Filter(db.versions, OfModule(other));
    }
  }

  lemma SliceTransitive(a: Db, b: Db, c: Db, id: string)
    requires SameSlice(a, b, id) && SameSlice(b, c, id)
    ensures SameSlice(a, c, id)
  {}
}

/**
 A reachable run in which two promoted versions share a digest: an imported artifact row
 without storage location, read by two promotions of different modules before either commits.
 */
module RegistrySharing {
  import opened ArtifactPaths
  import opened Digests
  import opened Immutability
  import RegistryAudit
  import opened RegistryCommit
  import opened RegistryDigests
  import opened RegistryDocuments
  import opened RegistryImport
  import opened RegistryImportLaws
  import opened RegistryInvariant
  import opened RegistryLoading
  import opened RegistryLossless
  import opened RegistryOverlap
  import opened RegistryPromotion
  import opened RegistryRepository
  import opened RegistryRuns
  import opened RegistrySteps
  import opened RegistryTables
  import opened SemVer
  import opened StableSort
  import opened Wrappers

  // ----- For any such pair of promotions -----

  /** An import brought the digest, and no promotion has used it yet. */
  ghost predicate ImportedOnly(db: Db, d: Digest) {
    Imported(db, d) && forall r | r in db.versions :: !Carries(r, d)
  }

  lemma EarlierViewAllowed(db: Db, first: Request, second: Request)
    requires Ready(db, first) && FromStore(first) && second.stored.digest in db.artifacts
    requires db.artifacts[second.stored.digest] == ArtifactRow(None, None)
    requires first.bound.intent.moduleId != second.bound.intent.moduleId
             && first.bound.intent.key != second.bound.intent.key
    requires ImportedOnly(db, second.stored.digest)
    ensures ViewFor(After(db, first), db, second)
  {
    hide Ready, FromStore, After, SameSlice, RowFor, FindRow, RelativePath;
    AfterKeepsOthers(db, first, second.bound.intent.moduleId);
    SliceSymmetric(db, After(db, first), second.bound.intent.moduleId);
    AfterRows(db, first);
    AfterAddsEvent(db, first);
    var i := first.bound.intent;
    var e := EventFor(first, PointerOf(db, i.moduleId, i.channel), RevisionOf(db, i.moduleId, i.channel) + 1);
    var concerns := Concerns(second.bound.intent.moduleId, second.bound.intent.key);
    FilterAppend(db.events, [e], concerns);
    FilterNone([e], concerns);
    assert Filter(db.events, concerns) + [] == Filter(db.events, concerns);
    var r :| r in db.versions && !r.promoted && r.digest == second.stored.digest;
    assert r in After(db, first).versions;
  }

  lemma SliceSymmetric(a: Db, b: Db, id: string)
    requires SameSlice(a, b, id)
    ensures SameSlice(b, a, id)
  {}

  /** Both promotions commit, the second over the view it read before, and the digest is shared. */
  lemma EarlierReadShares(db: Db, first: Request, second: Request)
    requires Inv(db) && Promotable(db, first) && Promotable(db, second) && FromStore(first) && FromStore(second)
    requires first.bound.intent.moduleId != second.bound.intent.moduleId
             && first.bound.intent.key != second.bound.intent.key
    requires first.stored.digest == second.stored.digest && first.stored.digest in db.artifacts
    requires db.artifacts[first.stored.digest] == ArtifactRow(None, None) && ImportedOnly(db, first.stored.digest)
    ensures Step(db, PromoteAct(first, db), After(db, first))
    ensures Step(After(db, first), PromoteAct(second, db), After(After(db, first), second))
    ensures !DigestsUnshared(After(After(db, first), second))
    ensures After(db, first).events != db.events && After(After(db, first), second).events != After(db, first).events
  {
    hide Inv, Ready, FromStore, After, IsFresh, Promotion, ViewFor, StorageFits, StrictlyNewest, RowFor, FindRow,
      RelativePath;
    CommitsIfPromotable(db, first);
    CommitsIfPromotable(db, second);
    InvLocated(db);
    FullViewIsView(db, first);
    FreshIsCommitted(db, first);
    FreshIsCommitted(db, second);
    PromotionKeepsInv(db, db, first);
    var mid := After(db, first);
    EarlierViewAllowed(db, first, second);
    PromotionKeepsInv(mid, db, second);
    AfterRows(db, first);
    AfterRows(mid, second);
    AfterAddsEvent(db, first);
    AfterAddsEvent(mid, second);
    assert RowFor(db, first) in After(mid, second).versions;
    assert RowFor(mid, second) in After(mid, second).versions;
  }

  lemma InvLocated(db: Db)
    requires Inv(db)
    ensures PromotedLocated(db) && PromotedRecorded(db)
  {}

  // ----- One such run -----

  const BYTES: Bytes := [0x50, 0x4B, 0x03, 0x04]

  const BUNDLE := Sha256(BYTES)

  const COMMIT := "0123456789abcdef0123456789abcdef01234567"

  const RANGE := ">=0.2.0,<1.0.0"

  const IMPORTED := Version("0", "1", "0", None, None)

  const PROMOTED := Version("1", "0", "0", None, None)

  const FIRST := "statistics"

  const SECOND := "analysis-areas"

  function RepositoryOf(id: string): string { "https://github.com/oklabflensburg/ocp-module-" + id }

  /** A first-party module with one release, downloaded from its GitHub repository. */
  function SourceOf(id: string): ModuleDoc {
    var url := RepositoryOf(id) + "/releases/download/v0.1.0/" + id + "-0.1.0.ocp";
    ModuleDoc(id, id, "oklabflensburg", "OK Lab Flensburg", FirstParty, "AGPL-3.0-only", RepositoryOf(id),
              None, None, None,
              [Release(IMPORTED, Nightly, url, BUNDLE, 1, COMMIT, Some("v0.1.0"), RANGE, RANGE, map[])])
  }

  const SOURCE := [SourceOf(FIRST), SourceOf(SECOND)]

  lemma SourceValid()
    ensures ValidRegistry(SOURCE) && PublishersConsistent(SOURCE) && DependenciesPresent(SOURCE)
    ensures Ids(SOURCE) == {FIRST, SECOND}
  {
    SourceModuleValid(FIRST);
    SourceModuleValid(SECOND);
    assert SOURCE[0].id != SOURCE[1].id;
    assert SOURCE[0] in SOURCE && SOURCE[1] in SOURCE;
  }

  lemma SourceModuleValid(id: string)
    requires id in {FIRST, SECOND}
    ensures ValidModule(SourceOf(id)) && SourceOf(id).id == id
  {
    hide IsModuleId;
    assert IsModuleId(id) by { IdsAccepted(); }
    assert IsNumeric("0") && IsNumeric("1");
  }

  lemma IdsAccepted()
    ensures IsModuleId(FIRST) && IsModuleId(SECOND)
  {}

  lemma SourceDoc(id: string)
    requires id in {FIRST, SECOND}
    ensures id in Ids(SOURCE) && DocOf(SOURCE, id) == SourceOf(id) && SourceOf(id) in SOURCE
  {
    assert SOURCE[0] in SOURCE && SOURCE[1] in SOURCE;
  }

  function RequestFor(db: Db, id: string): Request {
    var c := Candidate(id, PROMOTED, Stable, BUNDLE, 1, RepositoryOf(id), FirstParty, COMMIT, Some("v1.0.0"),
                       RANGE, RANGE, map[], "1", COMMIT, None, None);
    var i := PromotionIntent(id, PROMOTED, 1, CandidateSha256(c), BUNDLE, Stable, RevisionOf(db, id, Stable), id);
    Request(BoundIntent(i, "https://github.com/oklabflensburg/ocp-package-registry/pull/1", "maintainer", COMMIT, c),
            Metadata(id, PROMOTED, BUNDLE, |BYTES|))
  }

  lemma RequestChecks(db: Db, id: string)
    requires id in {FIRST, SECOND}
    ensures CheckIntent(RequestFor(db, id).bound).None? && CheckStored(RequestFor(db, id)).None?
            && FromStore(RequestFor(db, id))
    ensures ValidSingle(id, ReleaseOf(RequestFor(db, id).bound.candidate))
  {
    hide PublicUrl, RelativePath, RevisionOf;
    SourceModuleValid(id);
    assert ValidKey(id);
    assert IsNumeric("1") && IsNumeric("0");
  }

  ghost predicate ArtifactsPresent(db: Db) { forall r | r in db.versions :: r.digest in db.artifacts }

  lemma AddItemHoldsArtifact(d: Db, it: ImportItem)
    requires AddItem(d, it).Ok? && ArtifactsPresent(d)
    ensures ArtifactsPresent(AddItem(d, it).value.0)
  {
    hide AddItem, Stored, FindRow, HistoricalProvenance, DependencyRows;
    StoredIsNoOp(d, it);
    if AddItem(d, it).value.1 { AddItemInserts(d, it); }
  }

  lemma {:induction false} AddItemsHoldArtifacts(d: Db, items: seq<ImportItem>)
    requires AddItems(d, items).Ok? && ArtifactsPresent(d)
    ensures ArtifactsPresent(AddItems(d, items).value.0)
  {
    hide AddItem, ArtifactsPresent;
    if items != [] {
      AddItemsHoldArtifacts(d, items[..|items| - 1]);
      AddItemHoldsArtifact(AddItems(d, items[..|items| - 1]).value.0, items[|items| - 1]);
    }
  }

  lemma ImportHoldsArtifacts(db: Db, ms: seq<ModuleDoc>)
    requires Import(db, ms).Ok? && ArtifactsPresent(db)
    ensures ArtifactsPresent(Import(db, ms).value.0)
  {
    hide AddPublishers, AddModules, AddItems, AddPointings, ImportItems, Pointings, ProjectV1, ChannelTargets,
      Expected, ExpectedChannels, Sets;
    var a := AddPublishers(db, ms).value;
    var b := AddModules(a, ms).value;
    AddPublishersKeep(db, ms);
    AddModulesKeep(a, ms);
    AddItemsHoldArtifacts(b, ImportItems(ms));
    AddPointingsKeep(AddItems(b, ImportItems(ms)).value.0, Pointings(IndexEntries(ms)));
  }

  /** What the import of the source leaves for each of its two modules. */
  ghost predicate Prepared(db: Db, id: string) {
    && id in db.modules && db.modules[id] == ModuleRowOf(SourceOf(id))
    && Project(db, id) == SourceOf(id).versions
    && BUNDLE in db.artifacts && db.artifacts[BUNDLE] == ArtifactRow(None, None)
    && db.events == [] && ImportedOnly(db, BUNDLE)
  }

  lemma SourcePrepared(id: string)
    requires id in {FIRST, SECOND}
    ensures Import(EMPTY, SOURCE).Ok? && Inv(Import(EMPTY, SOURCE).value.0)
            && Prepared(Import(EMPTY, SOURCE).value.0, id)
  {
    hide Load, Loaded, ProjectV1, ChannelTargets, Expected, ExpectedChannels, Inv, Project, ImportItems, ValidModule,
      SourceOf, ModuleRowOf;
    SourceValid();
    ImportIntoEmpty(SOURCE);
    LoadIntoEmpty(SOURCE);
    var db := Import(EMPTY, SOURCE).value.0;
    SourceDoc(id);
    EmptyInv();
    RegistryAudit.ImportKeepsEvents(EMPTY, SOURCE);
    LoadedRegisters(db, SourceOf(id));
    SourceSorted(id);
    ImportHoldsArtifacts(EMPTY, SOURCE);
    ImportBindsNothing(EMPTY, SOURCE);
    BundleStored(db, id);
    InvLocated(db);
    NoneRecorded(db);
  }

  lemma LoadedRegisters(db: Db, m: ModuleDoc)
    requires Loaded(EMPTY, db, SOURCE) && m in SOURCE
    ensures m.id in db.modules && db.modules[m.id] == ModuleRowOf(m)
  {
    hide ModuleRowOf, Tidy, Stored, VersionsKept;
    assert Registers(db, m);
  }

  lemma SourceSorted(id: string)
    ensures CanonicalModule(SourceOf(id)) == SourceOf(id)
    ensures SourceOf(id).id == id
  {
    SortAscending(SourceOf(id).versions, ReleaseLess);
  }

  lemma BundleStored(db: Db, id: string)
    requires Project(db, id) == SourceOf(id).versions && ArtifactsPresent(db)
    ensures BUNDLE in db.artifacts && exists r :: r in db.versions && r.digest == BUNDLE
  {
    var r := RowsOf(db, id)[0];
    SortPermutes(Filter(db.versions, OfModule(id)));
    assert r in RowsOf(db, id);
    assert ReleaseStructure(db, r) == Project(db, id)[0];
    assert r.digest == BUNDLE;
  }

  lemma PreparedPromotable(db: Db, id: string)
    requires id in {FIRST, SECOND} && Prepared(db, id)
    ensures Promotable(db, RequestFor(db, id))
  {
    hide CheckIntent, CheckStored, ValidSingle, Project, PublicUrl, RelativePath, RevisionOf;
    RequestChecks(db, id);
    if FindRow(db.versions, id, PROMOTED).Some? { FoundIsProjected(db, id, PROMOTED); }
    assert forall x | x in Project(db, id) :: x.channel == Nightly && x.version == IMPORTED;
  }

  /** From an empty database: one import, two promotions that both read before either commits. */
  lemma SharedDigestIsReachable()
    ensures exists states: seq<Db>, acts: seq<Act> ::
              && Run(states, acts) && |acts| == 3
              && PromotedAt(states, acts, 1) && PromotedAt(states, acts, 2) && !DigestsUnshared(states[3])
  {
    hide Inv, After, Prepared, Promotable, RequestFor, DigestsUnshared, ViewFor, FromStore, Promotion, Import,
      IsFresh, Merge, ImportViewFor;
    SourcePrepared(FIRST);
    SourcePrepared(SECOND);
    var db := Import(EMPTY, SOURCE).value.0;
    PreparedPromotable(db, FIRST);
    PreparedPromotable(db, SECOND);
    var first, second := RequestFor(db, FIRST), RequestFor(db, SECOND);
    RequestIdentity(db, FIRST);
    RequestIdentity(db, SECOND);
    PreparedArtifact(db, FIRST);
    EarlierReadShares(db, first, second);
    var states := [EMPTY, db, After(db, first), After(After(db, first), second)];
    var acts := [ImportAct(SOURCE, EMPTY), PromoteAct(first, db), PromoteAct(second, db)];
    ImportIntoEmptySteps();
    assert Step(states[0], acts[0], states[1]);
    assert Step(states[1], acts[1], states[2]);
    assert Step(states[2], acts[2], states[3]);
    assert Run(states, acts);
    assert PromotedAt(states, acts, 1) && PromotedAt(states, acts, 2);
    assert !DigestsUnshared(states[3]);
  }

  /** The first import of an empty database is a step. */
  lemma ImportIntoEmptySteps()
    requires Import(EMPTY, SOURCE).Ok?
    ensures Step(EMPTY, ImportAct(SOURCE, EMPTY), Import(EMPTY, SOURCE).value.0)
  {
    hide Load, ProjectV1, ChannelTargets, Expected, ExpectedChannels, Merge;
    EmptyTidy();
    MergeSame(EMPTY, SOURCE);
  }

  lemma RequestIdentity(db: Db, id: string)
    requires id in {FIRST, SECOND}
    ensures RequestFor(db, id).bound.intent.moduleId == id && RequestFor(db, id).bound.intent.key == id
    ensures RequestFor(db, id).stored.digest == BUNDLE && FromStore(RequestFor(db, id))
  {
    RequestChecks(db, id);
  }

  lemma PreparedArtifact(db: Db, id: string)
    requires Prepared(db, id)
    ensures BUNDLE in db.artifacts && db.artifacts[BUNDLE] == ArtifactRow(None, None) && ImportedOnly(db, BUNDLE)
  {}
}

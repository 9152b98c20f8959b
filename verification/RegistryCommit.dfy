/**
 When a promotion commits: the invariant implies representability, and a promotion that sees
 the committed tables commits exactly when its release is strictly newer on its channel.
 */
module RegistryCommit {
  import opened ArtifactPaths
  import opened RegistryDocuments
  import opened RegistryGuards
  import opened RegistryInvariant
  import opened RegistryPromotion
  import opened RegistryRepository
  import opened RegistryRows
  import opened RegistryTables
  import opened SemVer
  import opened StableSort
  import opened Wrappers

  lemma ProjectedReleaseValid(db: Db, id: string, i: nat)
    requires RowsWell(db) && i < |RowsOf(db, id)|
    ensures id in db.modules && ValidSingle(id, Project(db, id)[i])
  {
    hide ReleaseStructure, DependenciesOwned, FindRow, UniqueRows, DenseOrder;
    var rows := RowsOf(db, id);
    SortPermutes(Filter(db.versions, OfModule(id)));
    assert rows[i] in rows;
    assert RowHolds(db, rows[i]);
  }

  lemma ProjectedModuleValid(db: Db, id: string)
    requires RowsWell(db) && id in ProjectV1(db)
    ensures ValidModule(ProjectV1(db)[id])
  {
    hide RowsWell, ReleaseStructure, FindRow, RowsOf, IsModuleId, ValidRelease;
    PublishedHasRow(db, id);
    RowsWellParts(db, id);
    SortedSize(db, id);
    var m := ProjectV1(db)[id];
    forall i | 0 <= i < |m.versions| ensures IsModuleId(id) && ValidRelease(m.versions[i], id) {
      ProjectedReleaseValid(db, id, i);
    }
    forall i, j | 0 <= i < j < |m.versions| ensures m.versions[i].version != m.versions[j].version {
      DenseVersions(db, id, i, j);
    }
    assert IsModuleId(id) && ValidRelease(m.versions[0], id);
  }

  lemma SortedSize(db: Db, id: string)
    ensures |RowsOf(db, id)| == |Filter(db.versions, OfModule(id))|
  {}

  lemma DenseVersions(db: Db, id: string, i: nat, j: nat)
    requires UniqueRows(db) && DenseOrder(db, id) && i < j < |RowsOf(db, id)|
    ensures RowsOf(db, id)[i].version != RowsOf(db, id)[j].version
    ensures ReleaseStructure(db, RowsOf(db, id)[i]).version != ReleaseStructure(db, RowsOf(db, id)[j]).version
  {
    hide FindRow;
    var rows := RowsOf(db, id);
    SortPermutes(Filter(db.versions, OfModule(id)));
    assert rows[i] in rows && rows[j] in rows;
    FindRowUnique(db.versions, rows[i]);
    FindRowUnique(db.versions, rows[j]);
  }

  lemma PublishedIsPointed(db: Db, id: string)
    requires RowsWell(db) && PointersAgree(db, id)
    ensures id in db.modules && id in PublishedIds(db) <==> id in PointedIds(db)
  {
    hide DenseOrder, DependenciesOwned, ReleaseStructure;
    PublishedHasRow(db, id);
    if id in PublishedIds(db) {
      var row :| row in db.versions && row.moduleId == id;
      assert RowHolds(db, row);
      var x := Project(db, id)[0];
      CurrentDominates(Project(db, id), x.channel);
      assert x in Project(db, id);
      assert x.channel in ChannelMap(db, id);
      var k := (id, x.channel);
      assert k in db.channels && k.1 in ChannelMap(db, k.0);
    }
    if id in PointedIds(db) {
      var k :| k in db.channels && k.1 in ChannelMap(db, k.0) && k.0 == id;
      var row := FindRow(db.versions, id, db.channels[k].version).value;
      assert row in db.versions;
      assert RowHolds(db, row);
    }
  }

  lemma AgreementIsRepresentable(db: Db)
    requires RowsWell(db) && forall id :: PointersAgree(db, id)
    ensures Representable(db)
  {
    hide ValidModule, RowsWell, ChannelMap, ChannelsOf, Project;
    forall id | id in ProjectV1(db) ensures ValidModule(ProjectV1(db)[id]) { ProjectedModuleValid(db, id); }
    forall id ensures id in db.modules && id in PublishedIds(db) <==> id in PointedIds(db) {
      PublishedIsPointed(db, id);
    }
    var expected, actual := IndexMap(ProjectV1(db)), ChannelTargets(db);
    forall id | id in expected ensures id in actual && expected[id] == actual[id] { assert PointersAgree(db, id); }
    assert expected.Keys == actual.Keys;
  }

  /** Every state that keeps the invariant is what the v1 selection rule asks for. */
  lemma InvRepresentable(db: Db)
    requires Inv(db)
    ensures Representable(db)
  {
    hide RowsWell, PointersAgree, PointersJoin, EventHolds, UniqueEvents, PromotedRecorded, Representable;
    AgreementIsRepresentable(db);
  }

  /** Nothing on the channel is as new as the promoted version. */
  ghost predicate StrictlyNewest(db: Db, id: string, c: Channel, v: Version) {
    forall x | x in Project(db, id) && x.channel == c :: Before(x.version, v)
  }

  lemma FinishPasses(now: Db, log: seq<Write>, req: Request, previous: Option<Version>, revision: nat)
    requires var i, c := req.bound.intent, req.bound.candidate;
             && i.moduleId in now.modules && ValidSingle(i.moduleId, ReleaseOf(c))
             && FindRow(now.versions, i.moduleId, ReleaseOf(c).version).None?
             && ReleaseOf(c).requiresModules.Keys <= now.modules.Keys
             && ReleaseOf(c).sha256 in now.artifacts
             && Representable(Apply(
                  Apply(now, VersionWrite(RowFor(now, req), DependencyRows(i.moduleId, ReleaseOf(c)))),
                                    ChannelWrite(i.moduleId, i.channel, Pointer(i.version, revision))))
    ensures Finish(now, log, req, previous, revision).Ok?
  {
    hide Representable, Apply, ApplyAll, NextOrder, ValidSingle, ReleaseStructure, DependencyRows, FindRow, ReleaseOf,
      ProvenanceOf, EventFor;
    var insert :=
      VersionWrite(RowFor(now, req), DependencyRows(req.bound.intent.moduleId, ReleaseOf(req.bound.candidate)));
    ApplyAllNone(now);
    ApplyAllAppend(now, [], insert);
    assert [] + [insert] == [insert];
  }

  lemma FreshPasses(db: Db, req: Request)
    requires Ready(db, req)
    requires StorageFits(SeenArtifact(db, req.stored.digest), req.stored)
    requires req.bound.candidate.requiresModules.Keys <= db.modules.Keys
    requires var i := req.bound.intent;
             Representable(Moved(db, req, NextOrder(db, i.moduleId), RevisionOf(db, i.moduleId, i.channel) + 1))
    ensures Fresh(db, req).Ok?
  {
    hide Representable, ApplyAll, Finish, FindRow, NextOrder, ProvenanceOf, DependencyRows, EventFor, ValidSingle,
      ValidKey, StorageFits;
    var i := req.bound.intent;
    var log := BoundLog(db, req.stored);
    var now := ApplyAll(db, log);
    BoundApplied(db, db, req.stored);
    IntentNamesCandidate(req);
    NextOrderOf(now, db, i.moduleId);
    FreshReachesFinish(db, req);
    FinishPasses(now, log, req, PointerOf(db, i.moduleId, i.channel), RevisionOf(db, i.moduleId, i.channel) + 1);
  }

  lemma SameTablesRead(a: Db, b: Db)
    requires a == b.(events := a.events)
    ensures ProjectV1(a) == ProjectV1(b) && ChannelTargets(a) == ChannelTargets(b)
  {
    hide Project, ChannelMap, SameSlice;
    forall id ensures Project(a, id) == Project(b, id) && ChannelMap(a, id) == ChannelMap(b, id) {
      EventsOutsideSlice(a, b, id);
      SliceProjection(a, b, id);
    }
    assert PointedIds(a) == PointedIds(b);
    assert PublishedIds(a) == PublishedIds(b);
  }

  lemma EventsOutsideSlice(a: Db, b: Db, id: string)
    requires a == b.(events := a.events)
    ensures SameSlice(a, b, id)
  {}

  lemma SameTablesRepresentable(a: Db, b: Db)
    requires a == b.(events := a.events)
    ensures Representable(a) <==> Representable(b)
  {
    hide ProjectV1, ChannelTargets, ValidModule, IndexMap;
    SameTablesRead(a, b);
  }

  lemma AfterRepresentable(db: Db, req: Request)
    requires Inv(db) && Ready(db, req)
    requires StrictlyNewest(db, req.bound.intent.moduleId, req.bound.intent.channel, req.bound.intent.version)
    ensures Representable(After(db, req))
  {
    hide Ready, RowsWell, After, EventHolds, UniqueEvents, PromotedRecorded, PointersJoin, Project, PointersAgree,
      Representable, Before, Inserted, TakesNextPlace, ValidSingle, RowFor, ReleaseOf;
    OwnModuleCheck(db, req);
    AfterInserts(db, req);
    InsertKeepsRows(db, After(db, req), RowFor(db, req), ReleaseOf(req.bound.candidate));
    forall id ensures PointersAgree(After(db, req), id) {
      if id != req.bound.intent.moduleId { OtherStillAgrees(db, req, id); }
    }
    AgreementIsRepresentable(After(db, req));
  }

  lemma OtherStillAgrees(db: Db, req: Request, id: string)
    requires id != req.bound.intent.moduleId && PointersAgree(db, id)
    ensures PointersAgree(After(db, req), id)
  {
    hide After, SameSlice, Project, ChannelMap, ChannelsOf;
    AfterKeepsOthers(db, req, id);
    SliceProjection(db, After(db, req), id);
  }

  /** Everything a caller can read off the committed tables before calling promote. */
  ghost predicate Promotable(db: Db, req: Request) {
    var i := req.bound.intent;
    && Ready(db, req)
    && StorageFits(SeenArtifact(db, req.stored.digest), req.stored)
    && req.bound.candidate.requiresModules.Keys <= db.modules.Keys
    && StrictlyNewest(db, i.moduleId, i.channel, i.version)
  }

  lemma MovedIsAfter(db: Db, req: Request)
    ensures var i := req.bound.intent;
            var moved := Moved(db, req, NextOrder(db, i.moduleId), RevisionOf(db, i.moduleId, i.channel) + 1);
            After(db, req) == moved.(events := After(db, req).events)
  {
    hide Moved, NextOrder, RevisionOf, PointerOf;
  }

  lemma CommitsIfPromotable(db: Db, req: Request)
    requires Inv(db)
    ensures IsFresh(db, req) <==> Promotable(db, req)
  {
    hide Inv, Promotion, Fresh, Ready, Admitted, StorageFits, Representable, StrictlyNewest, After, Moved, FindRow,
      NextOrder, RevisionOf, SeenArtifact;
    if IsFresh(db, req) {
      FreshCommits(db, req, db);
      InvWell(db);
      FullViewIsView(db, req);
      PromotionKeepsInv(db, db, req);
      AdmittedParts(db, req);
      AfterNewest(db, req);
    }
    if Promotable(db, req) {
      AfterRepresentable(db, req);
      MovedIsAfter(db, req);
      var i := req.bound.intent;
      SameTablesRepresentable(After(db, req),
        Moved(db, req, NextOrder(db, i.moduleId), RevisionOf(db, i.moduleId, i.channel) + 1));
      FreshPasses(db, req);
      ReadyDecides(db, req);
    }
  }

  lemma AdmittedParts(db: Db, req: Request)
    requires Admitted(db, req)
    ensures StorageFits(SeenArtifact(db, req.stored.digest), req.stored)
    ensures req.bound.candidate.requiresModules.Keys <= db.modules.Keys
  {}

  lemma AfterNewest(db: Db, req: Request)
    requires Inv(db) && Ready(db, req) && Inv(After(db, req))
    ensures StrictlyNewest(db, req.bound.intent.moduleId, req.bound.intent.channel, req.bound.intent.version)
  {
    hide Ready, RowsWell, After, EventHolds, UniqueEvents, PromotedRecorded, PointersJoin, Project, PointersAgree,
      Before;
    OwnModuleCheck(db, req);
  }

  lemma ReadyDecides(db: Db, req: Request)
    requires Ready(db, req)
    ensures Promotion(db, req) == Fresh(db, req) && FindEvent(db.events, req.bound.intent.key).None?
  {
    hide Fresh, Retry;
  }

  /** Every release of the module on the channel has strictly lower precedence. */
  ghost predicate NewestOnChannel(db: Db, i: PromotionIntent) {
    forall r | r in db.versions && r.moduleId == i.moduleId && r.channel == i.channel :: Before(r.version, i.version)
  }

  /** What a caller can read off the request and the committed tables before calling promote. */
  ghost predicate Approvable(db: Db, req: Request) {
    var i, c := req.bound.intent, req.bound.candidate;
    && KeyForm(i.key) && i.expectedRevision >= 0 && NamesCandidate(req.bound) && StoredAsApproved(req)
    && Registered(db, c) && ReleaseRules(c)
    && KeyFree(db, i) && VersionFree(db, i) && RowFree(db, i)
    && AtRevision(db, i) && ArtifactOpen(db, req)
    && c.requiresModules.Keys <= db.modules.Keys
    && NewestOnChannel(db, i)
  }

  lemma NewestExactly(db: Db, i: PromotionIntent)
    ensures StrictlyNewest(db, i.moduleId, i.channel, i.version) <==> NewestOnChannel(db, i)
  {
    hide Before;
    var rows := RowsOf(db, i.moduleId);
    SortPermutes(Filter(db.versions, OfModule(i.moduleId)));
    forall k | 0 <= k < |rows| ensures Project(db, i.moduleId)[k].version == rows[k].version
      ensures Project(db, i.moduleId)[k].channel == rows[k].channel
      ensures Project(db, i.moduleId)[k] in Project(db, i.moduleId)
      ensures rows[k] in db.versions && rows[k].moduleId == i.moduleId
    {
      assert rows[k] in rows;
    }
    forall r | r in db.versions && r.moduleId == i.moduleId ensures exists k :: 0 <= k < |rows| && rows[k] == r {
      assert r in rows;
    }
  }

  lemma ReadyExactly(db: Db, req: Request)
    ensures Ready(db, req) <==>
              var i, c := req.bound.intent, req.bound.candidate;
              && KeyForm(i.key) && i.expectedRevision >= 0 && NamesCandidate(req.bound) && StoredAsApproved(req)
              && Registered(db, c) && ReleaseRules(c)
              && KeyFree(db, i) && VersionFree(db, i) && RowFree(db, i) && AtRevision(db, i)
  {
    hide KeyForm, NamesCandidate, StoredAsApproved, Registered, ReleaseRules, AtRevision, CheckIntent, CheckStored,
      CheckModule, RevisionOf;
    IntentExactly(req.bound);
    StoredExactly(req);
    ModuleExactly(db, req.bound.candidate);
    RevisionExactly(db, req.bound.intent);
  }

  /**
   A promotion under a new key that sees the committed tables commits if and only if the
   request is the one these tables expect and its version has strictly higher precedence than
   every release on its channel: neither a rewind nor another build of the same version.
   */
  lemma CommitsExactlyWhen(db: Db, req: Request)
    requires Inv(db)
    ensures IsFresh(db, req) <==> Approvable(db, req)
  {
    hide Inv, IsFresh, Ready, StrictlyNewest, NewestOnChannel, StorageFits, SeenArtifact, KeyForm, NamesCandidate,
      StoredAsApproved, Registered, ReleaseRules, KeyFree, VersionFree, RowFree, AtRevision, ArtifactOpen;
    CommitsIfPromotable(db, req);
    ReadyExactly(db, req);
    StorageExactly(db, req);
    NewestExactly(db, req.bound.intent);
  }

  // ----- What a commit leaves behind -----

  /** Whatever a commit saw of other modules: of the own one the request was exactly what the tables expect. */
  lemma PromotionMatches(db: Db, view: Db, req: Request)
    requires Inv(db) && ViewFor(db, view, req) && IsFresh(view, req)
    ensures var i, c := req.bound.intent, req.bound.candidate;
            && KeyForm(i.key) && NamesCandidate(req.bound) && StoredAsApproved(req)
            && Registered(db, c) && ReleaseRules(c)
            && KeyFree(db, i) && VersionFree(db, i) && RowFree(db, i) && AtRevision(db, i) && NewestOnChannel(db, i)
  {
    hide Inv, IsFresh, Ready, StrictlyNewest, NewestOnChannel, KeyForm, NamesCandidate, StoredAsApproved, Registered,
      ReleaseRules, KeyFree, VersionFree, RowFree, AtRevision, ViewFor, After, Promotion;
    PromotionKeepsInv(db, view, req);
    ReadyExactly(db, req);
    AfterNewest(db, req);
    NewestExactly(db, req.bound.intent);
  }

  /** The row that a candidate becomes: every column from the reviewed candidate, in the next place of its module. */
  ghost predicate IsRowOf(row: VersionRow, c: Candidate, order: nat) {
    && row.moduleId == c.moduleId && row.version == c.version && row.channel == c.plannedChannel
    && row.digest == c.bundleSha256 && row.url == MirrorUrl(c.moduleId, c.version) && row.order == order
    && row.bundleFormat == c.bundleFormat && row.sourceTag == c.sourceTag && row.sourceCommit == c.sourceCommit
    && row.host == c.host && row.sdk == c.sdk && row.promoted
    && IsEvidenceOf(row.provenance, c)
  }

  /** The reviewed evidence: builder, host and environment known, reproducible, and the host contract passed. */
  ghost predicate IsEvidenceOf(p: Provenance, c: Candidate) {
    && p.sourceRepository == c.sourceRepository && p.sourceTag == c.sourceTag && p.sourceCommit == c.sourceCommit
    && p.builderVersion == Some(c.builderVersion) && p.builderCommit == Some(c.builderCommit)
    && p.hostCommit == (if c.environment.Some? then c.hostCommit else None)
    && p.reproducible == Some(true) && p.hostContract == Some("passed") && p.environment == c.environment
  }

  /** b is a with the dependencies of the candidate, each with its range. */
  ghost predicate AddsDependencies(a: Db, b: Db, c: Candidate) {
    && (forall d | d in c.requiresModules ::
          (c.moduleId, c.version, d) in b.dependencies
          && b.dependencies[(c.moduleId, c.version, d)] == c.requiresModules[d])
    && (forall k | k in b.dependencies && !(k.0 == c.moduleId && k.1 == c.version && k.2 in c.requiresModules) ::
          k in a.dependencies && b.dependencies[k] == a.dependencies[k])
    && (forall k | k in a.dependencies :: k in b.dependencies)
  }

  lemma DependenciesAdded(a: Db, b: Db, c: Candidate)
    requires b.dependencies == a.dependencies + DependencyRows(c.moduleId, ReleaseOf(c))
    ensures AddsDependencies(a, b, c)
  {
    hide PublicUrl;
    var more := DependencyRows(c.moduleId, ReleaseOf(c));
    forall k | k in b.dependencies && !(k.0 == c.moduleId && k.1 == c.version && k.2 in c.requiresModules)
      ensures k !in more
    {}
  }

  lemma AfterTables(db: Db, req: Request)
    ensures var i, c, b := req.bound.intent, req.bound.candidate, After(db, req);
            && b.versions == db.versions + [RowFor(db, req)]
            && b.artifacts ==
               db.artifacts[req.stored.digest := ArtifactRow(Some(req.stored.byteSize), Some(req.stored.locator))]
            && b.publishers == db.publishers && b.modules == db.modules
            && b.dependencies == db.dependencies + DependencyRows(i.moduleId, ReleaseOf(c))
  {
    hide NextOrder, EventFor, PointerOf, RevisionOf, ReleaseOf, DependencyRows, ProvenanceOf, RowOf;
  }

  lemma RowForIsRow(db: Db, req: Request)
    requires CheckIntent(req.bound).None?
    ensures IsRowOf(RowFor(db, req), req.bound.candidate, NextOrder(db, req.bound.intent.moduleId))
  {
    hide NextOrder, ValidKey, PublicUrl, MirrorUrl;
    MirrorUrlIsPublic(req.bound.candidate.moduleId, req.bound.candidate.version);
  }

  /** The tables that a commit leaves, column by column; the event is stated on its own. */
  lemma AfterStores(db: Db, req: Request)
    requires Ready(db, req)
    ensures var i, c, b := req.bound.intent, req.bound.candidate, After(db, req);
            && (exists row :: IsRowOf(row, c, NextOrder(db, i.moduleId)) && b.versions == db.versions + [row])
            && b.artifacts ==
               db.artifacts[i.bundleSha256 := ArtifactRow(Some(req.stored.byteSize), Some(req.stored.locator))]
            && b.publishers == db.publishers && b.modules == db.modules
            && AddsDependencies(db, b, c)
  {
    hide After, NextOrder, ValidSingle, ValidKey, FindRow, PublicUrl, MirrorUrl, RowFor, IsRowOf, ReleaseOf,
      DependencyRows, AddsDependencies, RevisionOf;
    ReadyRelease(db, req);
    IntentNamesCandidate(req);
    AfterTables(db, req);
    RowForIsRow(db, req);
    DependenciesAdded(db, After(db, req), req.bound.candidate);
  }

  /** The release is the candidate, under its canonical URL. */
  ghost predicate IsReleaseOf(r: Release, c: Candidate) {
    && r.version == c.version && r.channel == c.plannedChannel && r.sha256 == c.bundleSha256
    && r.url == PublicUrl(c.moduleId, c.version) && r.bundleFormat == c.bundleFormat == 1
    && r.sourceCommit == c.sourceCommit && r.sourceTag == c.sourceTag
    && r.host == c.host && r.sdk == c.sdk && r.requiresModules == c.requiresModules
  }

  lemma AfterPublishes(db: Db, req: Request)
    requires Ready(db, req) && RowsWell(db)
    ensures var i := req.bound.intent;
            exists r :: IsReleaseOf(r, req.bound.candidate)
              && Project(After(db, req), i.moduleId) == Project(db, i.moduleId) + [r]
  {
    hide Ready, After, Project, Inserted, TakesNextPlace, ReleaseOf, RowFor, RowsWell, ValidSingle, IsReleaseOf;
    ReadyRelease(db, req);
    AfterInserts(db, req);
    RowsWellParts(db, RowFor(db, req).moduleId);
    InsertProjects(db, After(db, req), RowFor(db, req), ReleaseOf(req.bound.candidate));
  }

  lemma AfterLeavesOthers(db: Db, req: Request, id: string)
    requires id != req.bound.intent.moduleId
    ensures Project(After(db, req), id) == Project(db, id) && ChannelMap(After(db, req), id) == ChannelMap(db, id)
  {
    hide After, SameSlice, Project, ChannelMap;
    AfterKeepsOthers(db, req, id);
    SliceProjection(db, After(db, req), id);
  }

  /**
   A committed promotion publishes exactly the reviewed candidate: one release more at the end
   of its module, the pointer of its channel on it with the next revision, every other pointer
   and every other module as before.
   */
  lemma PromotionPublishes(db: Db, view: Db, req: Request)
    requires Inv(db) && ViewFor(db, view, req) && IsFresh(view, req)
    ensures var (i, b) := (req.bound.intent, ApplyAll(db, Promotion(view, req).value.1));
            && (exists r ::
                  IsReleaseOf(r, req.bound.candidate) && Project(b, i.moduleId) == Project(db, i.moduleId) + [r])
            && (forall id | id != i.moduleId ::
                  Project(b, id) == Project(db, id) && ChannelMap(b, id) == ChannelMap(db, id))
            && b.channels == db.channels[(i.moduleId, i.channel) := Pointer(i.version, i.expectedRevision + 1)]
  {
    hide Inv, ViewFor, IsFresh, Promotion, After, Project, ChannelMap, ReleaseOf, RowFor, RowsWell, Ready,
      IsReleaseOf, RevisionOf;
    PromotionKeepsInv(db, view, req);
    InvWell(db);
    ReadyRelease(db, req);
    AfterPublishes(db, req);
    AfterPointer(db, req);
    forall id | id != req.bound.intent.moduleId
      ensures Project(After(db, req), id) == Project(db, id) && ChannelMap(After(db, req), id) == ChannelMap(db, id)
    {
      AfterLeavesOthers(db, req, id);
    }
  }

  lemma InvWell(db: Db)
    requires Inv(db)
    ensures RowsWell(db) && PromotedLocated(db)
  {}

  lemma ReadyRelease(db: Db, req: Request)
    requires Ready(db, req)
    ensures IsReleaseOf(ReleaseOf(req.bound.candidate), req.bound.candidate)
    ensures RowFor(db, req).moduleId == req.bound.intent.moduleId
    ensures req.stored.digest == req.bound.intent.bundleSha256
    ensures req.stored.publicUrl == PublicUrl(req.bound.intent.moduleId, req.bound.intent.version)
    ensures RevisionOf(db, req.bound.intent.moduleId, req.bound.intent.channel) == req.bound.intent.expectedRevision
  {
    hide PublicUrl, ValidKey, FindRow;
    IntentNamesCandidate(req);
  }

  lemma AfterPointer(db: Db, req: Request)
    ensures var i := req.bound.intent;
            After(db, req).channels == db.channels[(i.moduleId, i.channel) :=
              Pointer(i.version, RevisionOf(db, i.moduleId, i.channel) + 1)]
  {
    hide RowOf, NextOrder, ReleaseOf, DependencyRows, EventFor, ProvenanceOf;
  }
}

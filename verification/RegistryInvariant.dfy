/**
 The invariant of the committed tables, and that a promotion keeps it although the
 transaction sees only its own module exactly.
 */
module RegistryInvariant {
  import opened ArtifactPaths
  import opened RegistryDocuments
  import opened RegistryPromotion
  import opened RegistryRepository
  import opened RegistryRows
  import opened RegistryTables
  import opened SemVer
  import opened StableSort
  import opened Wrappers

  // ----- The invariant -----

  /** The pointers and digests of a module are what build_index selects from its releases. */
  ghost predicate PointersAgree(db: Db, id: string) {
    ChannelMap(db, id) == ChannelsOf(Project(db, id))
  }

  ghost predicate PointersJoin(db: Db) {
    forall k | k in db.channels :: k.0 in db.modules && FindRow(db.versions, k.0, db.channels[k].version).Some?
  }

  /** An event names its intent, its promoted row and the module it was approved for. */
  ghost predicate EventHolds(db: Db, e: Event) {
    var i, c := e.intent.intent, e.intent.candidate;
    && e.key == i.key && e.moduleId == i.moduleId && e.version == i.version && e.channel == i.channel
    && CheckIntent(e.intent).None?
    && CheckModule(db, c).None?
    && e.result.status == Published
    && PromotedAs(db, i.moduleId, c)
  }

  ghost predicate PromotedAs(db: Db, id: string, c: Candidate) {
    var row := FindRow(db.versions, id, c.version);
    row.Some? && row.value.promoted && row.value.provenance == ProvenanceOf(c)
    && ReleaseStructure(db, row.value) == ReleaseOf(c)
  }

  ghost predicate UniqueEvents(db: Db) {
    forall i, j | 0 <= i < j < |db.events| ::
      && db.events[i].key != db.events[j].key
      && !(db.events[i].moduleId == db.events[j].moduleId && db.events[i].version == db.events[j].version)
  }

  ghost predicate PromotedRecorded(db: Db) {
    forall r | r in db.versions && r.promoted :: EventOfVersion(db.events, r.moduleId, r.version).Some?
  }

  /** Modules come from imports, and none without a version. */
  ghost predicate ImportedPublished(db: Db) {
    forall id | id in db.modules :: exists r :: r in db.versions && r.moduleId == id && !r.promoted
  }

  ghost predicate Inv(db: Db) {
    && RowsWell(db)
    && (forall id :: PointersAgree(db, id))
    && PointersJoin(db)
    && (forall e | e in db.events :: EventHolds(db, e))
    && UniqueEvents(db)
    && PromotedRecorded(db)
    && PromotedLocated(db)
    && ImportedPublished(db)
  }

  // ----- The net effect of a committed promotion -----

  ghost function InsertionOf(req: Request, order: nat): Write {
    var c := req.bound.candidate;
    VersionWrite(RowOf(req.bound.intent.moduleId, ReleaseOf(c), order, true, ProvenanceOf(c)),
                 DependencyRows(req.bound.intent.moduleId, ReleaseOf(c)))
  }

  ghost function MoveOf(req: Request, revision: nat): Write {
    ChannelWrite(req.bound.intent.moduleId, req.bound.intent.channel, Pointer(req.bound.intent.version, revision))
  }

  /** The tables with everything of a promotion but its event. */
  ghost function Moved(db: Db, req: Request, order: nat, revision: nat): Db {
    Apply(Apply(Apply(db, BindStorage(req.stored)), InsertionOf(req, order)), MoveOf(req, revision))
  }

  ghost function Committed(db: Db, req: Request, order: nat, previous: Option<Version>, revision: nat): Db {
    Apply(Moved(db, req, order, revision), EventWrite(EventFor(req, previous, revision)))
  }

  /** Everything that a fresh promotion has checked when it commits. */
  ghost predicate Admitted(view: Db, req: Request) {
    var i, c := req.bound.intent, req.bound.candidate;
    && CheckIntent(req.bound).None? && CheckStored(req).None? && CheckModule(view, c).None?
    && FindEvent(view.events, i.key).None?
    && EventOfVersion(view.events, i.moduleId, i.version).None?
    && RevisionOf(view, i.moduleId, i.channel) == i.expectedRevision
    && StorageFits(SeenArtifact(view, req.stored.digest), req.stored)
    && FindRow(view.versions, i.moduleId, i.version).None?
    && c.requiresModules.Keys <= view.modules.Keys
    && Representable(Moved(view, req, NextOrder(view, i.moduleId), RevisionOf(view, i.moduleId, i.channel) + 1))
  }

  lemma BoundApplied(db: Db, view: Db, stored: StoredArtifact)
    ensures ApplyAll(db, BoundLog(view, stored)) == Apply(db, BindStorage(stored))
  {
    hide ApplyAll;
    var ensured := EnsureArtifactLog(view, stored.digest);
    var row := ArtifactRow(Some(stored.byteSize), Some(stored.locator));
    ApplyAllAppend(db, ensured, BindStorage(stored));
    ApplyAllNone(db);
    if stored.digest !in view.artifacts {
      ApplyAllAppend(db, [], ensured[0]);
      assert [] + [ensured[0]] == ensured;
      Overwrite(db.artifacts, stored.digest, ArtifactRow(None, None), row);
    }
  }

  lemma Overwrite<K, V>(m: map<K, V>, k: K, a: V, b: V)
    ensures m[k := a][k := b] == m[k := b]
  {}

  lemma ThreeMore(db: Db, log: seq<Write>, a: Write, b: Write, c: Write)
    ensures ApplyAll(db, log + [] + [a] + [b] + [c]) == Apply(Apply(Apply(ApplyAll(db, log), a), b), c)
    ensures ApplyAll(db, log + ([] + [a]) + [b] + [c]) == Apply(Apply(Apply(ApplyAll(db, log), a), b), c)
  {
    hide Apply, ApplyAll;
    assert log + [] == log && [] + [a] == [a];
    ApplyAllAppend(db, log, a);
    ApplyAllAppend(db, log + [a], b);
    ApplyAllAppend(db, log + [a] + [b], c);
  }

  ghost predicate IsFresh(view: Db, req: Request) {
    Promotion(view, req).Ok? && FindEvent(view.events, req.bound.intent.key).None?
  }

  ghost function RowFor(view: Db, req: Request): VersionRow {
    RowOf(req.bound.intent.moduleId, ReleaseOf(req.bound.candidate), NextOrder(view, req.bound.intent.moduleId), true,
          ProvenanceOf(req.bound.candidate))
  }

  /** What Finish has decided when it commits: the insertion took the fresh branch, and the future state passed. */
  lemma FinishCommits(now: Db, log: seq<Write>, req: Request, previous: Option<Version>, revision: nat)
    requires Finish(now, log, req, previous, revision).Ok?
    requires req.bound.candidate.bundleSha256 in now.artifacts
    ensures var i, c := req.bound.intent, req.bound.candidate;
            var insert := VersionWrite(RowFor(now, req), DependencyRows(i.moduleId, ReleaseOf(c)));
            var move := ChannelWrite(i.moduleId, i.channel, Pointer(i.version, revision));
            && FindRow(now.versions, i.moduleId, c.version).None?
            && c.requiresModules.Keys <= now.modules.Keys
            && Representable(Apply(Apply(now, insert), move))
            && Finish(now, log, req, previous, revision) ==
               Ok((EventFor(req, previous, revision).result,
                   log + ([] + [insert]) + [move] + [EventWrite(EventFor(req, previous, revision))]))
  {
    hide Representable, Apply, ApplyAll, NextOrder, ValidSingle, ReleaseStructure;
    var insert :=
      VersionWrite(RowFor(now, req), DependencyRows(req.bound.intent.moduleId, ReleaseOf(req.bound.candidate)));
    ApplyAllNone(now);
    ApplyAllAppend(now, [], insert);
  }

  /** A fresh promotion that commits was admitted, and commits exactly these rows. */
  lemma FreshCommits(view: Db, req: Request, db: Db)
    requires IsFresh(view, req)
    ensures Admitted(view, req)
    ensures var i := req.bound.intent;
            var previous, revision :=
              PointerOf(view, i.moduleId, i.channel), RevisionOf(view, i.moduleId, i.channel) + 1;
            && Promotion(view, req).value.0 == EventFor(req, previous, revision).result
            && ApplyAll(db, Promotion(view, req).value.1) ==
               Committed(db, req, NextOrder(view, i.moduleId), previous, revision)
  {
    hide Representable, ApplyAll, Finish, FindRow, NextOrder, ReleaseOf, ProvenanceOf, DependencyRows, EventFor;
    var i, c := req.bound.intent, req.bound.candidate;
    var log := BoundLog(view, req.stored);
    var now := ApplyAll(view, log);
    var previous, revision := PointerOf(view, i.moduleId, i.channel), RevisionOf(view, i.moduleId, i.channel) + 1;
    BoundApplied(view, view, req.stored);
    BoundApplied(db, view, req.stored);
    FreshReachesFinish(view, req);
    FinishCommits(now, log, req, previous, revision);
    var insert := VersionWrite(RowFor(now, req), DependencyRows(i.moduleId, ReleaseOf(c)));
    var move := ChannelWrite(i.moduleId, i.channel, Pointer(i.version, revision));
    NextOrderOf(now, view, i.moduleId);
    ThreeMore(db, log, insert, move, EventWrite(EventFor(req, previous, revision)));
  }

  lemma NextOrderOf(a: Db, b: Db, id: string)
    requires a.versions == b.versions
    ensures NextOrder(a, id) == NextOrder(b, id)
  {}

  // ----- The view decides as the committed tables would, for its own module -----

  lemma ViewAgrees(db: Db, view: Db, req: Request)
    requires ViewFor(db, view, req) && Admitted(view, req)
    ensures var i := req.bound.intent;
            && CheckModule(db, req.bound.candidate).None?
            && FindEvent(db.events, i.key).None?
            && EventOfVersion(db.events, i.moduleId, i.version).None?
            && FindRow(db.versions, i.moduleId, i.version).None?
            && NextOrder(db, i.moduleId) == NextOrder(view, i.moduleId)
            && RevisionOf(db, i.moduleId, i.channel) == RevisionOf(view, i.moduleId, i.channel) == i.expectedRevision
            && PointerOf(db, i.moduleId, i.channel) == PointerOf(view, i.moduleId, i.channel)
  {
    hide Representable, ValidSingle;
    var i := req.bound.intent;
    FindEventConcerned(db.events, i.moduleId, i.key, i.version);
    FindEventConcerned(view.events, i.moduleId, i.key, i.version);
    SliceFindRow(db, view, i.moduleId, i.version);
  }

  lemma MovedSlice(db: Db, view: Db, req: Request, order: nat, revision: nat)
    requires SameSlice(db, view, req.bound.intent.moduleId)
    ensures SameSlice(Moved(db, req, order, revision), Moved(view, req, order, revision), req.bound.intent.moduleId)
  {
    hide SameSlice, Apply;
    var id := req.bound.intent.moduleId;
    var a1, b1 := Apply(db, BindStorage(req.stored)), Apply(view, BindStorage(req.stored));
    ArtifactWriteKeepsSlice(db, view, id, BindStorage(req.stored));
    VersionWriteKeepsSlice(a1, b1, id, InsertionOf(req, order));
    ChannelWriteKeepsSlice(Apply(a1, InsertionOf(req, order)), Apply(b1, InsertionOf(req, order)), id,
      MoveOf(req, revision));
  }

  lemma ArtifactWriteKeepsSlice(a: Db, b: Db, id: string, w: Write)
    requires SameSlice(a, b, id) && w.ArtifactWrite?
    ensures SameSlice(Apply(a, w), Apply(b, w), id)
  {}

  lemma VersionWriteKeepsSlice(a: Db, b: Db, id: string, w: Write)
    requires SameSlice(a, b, id) && w.VersionWrite?
    ensures SameSlice(Apply(a, w), Apply(b, w), id)
  {
    FilterAppend(a.versions, [w.row], OfModule(id));
    FilterAppend(b.versions, [w.row], OfModule(id));
  }

  lemma ChannelWriteKeepsSlice(a: Db, b: Db, id: string, w: Write)
    requires SameSlice(a, b, id) && w.ChannelWrite?
    ensures SameSlice(Apply(a, w), Apply(b, w), id)
  {}

  lemma MovedKeepsOthers(db: Db, req: Request, order: nat, revision: nat, other: string)
    requires other != req.bound.intent.moduleId
    ensures SameSlice(db, Moved(db, req, order, revision), other)
  {
    hide SameSlice, Apply;
    var a1 := Apply(db, BindStorage(req.stored));
    var a2 := Apply(a1, InsertionOf(req, order));
    ForeignKeepsSlice(db, BindStorage(req.stored), other);
    ForeignKeepsSlice(a1, InsertionOf(req, order), other);
    ForeignKeepsSlice(a2, MoveOf(req, revision), other);
    SliceTransitive(db, a1, a2, other);
    SliceTransitive(db, a2, Moved(db, req, order, revision), other);
  }

  lemma RepresentableAgrees(db: Db, id: string)
    requires Representable(db) && id in db.modules && id in PublishedIds(db)
    ensures PointersAgree(db, id)
  {
    hide ChannelMap, ChannelsOf, Project, ValidModule;
    assert id in IndexMap(ProjectV1(db));
    assert IndexMap(ProjectV1(db))[id] == ChannelTargets(db)[id];
  }

  // ----- Preservation -----

  /** The committed tables after an admitted promotion. */
  ghost function After(db: Db, req: Request): Db {
    var i := req.bound.intent;
    Committed(db, req, NextOrder(db, i.moduleId), PointerOf(db, i.moduleId, i.channel),
      RevisionOf(db, i.moduleId, i.channel) + 1)
  }

  /** What the own module and the own key show, whatever the view of everything else was. */
  ghost predicate Ready(db: Db, req: Request) {
    var i, c := req.bound.intent, req.bound.candidate;
    && CheckIntent(req.bound).None? && CheckStored(req).None? && CheckModule(db, c).None?
    && FindRow(db.versions, i.moduleId, i.version).None?
    && FindEvent(db.events, i.key).None?
    && EventOfVersion(db.events, i.moduleId, i.version).None?
    && RevisionOf(db, i.moduleId, i.channel) == i.expectedRevision
  }

  lemma IntentNamesCandidate(req: Request)
    requires CheckIntent(req.bound).None?
    ensures req.bound.candidate.version == req.bound.intent.version
    ensures req.bound.candidate.moduleId == req.bound.intent.moduleId
    ensures req.bound.candidate.plannedChannel == req.bound.intent.channel
    ensures req.bound.candidate.bundleSha256 == req.bound.intent.bundleSha256
  {}

  lemma AfterInserts(db: Db, req: Request)
    requires Ready(db, req) && RowsWell(db)
    ensures Inserted(db, After(db, req), RowFor(db, req), ReleaseOf(req.bound.candidate))
    ensures TakesNextPlace(db, RowFor(db, req))
    ensures RowFor(db, req).moduleId in db.modules
    ensures ValidSingle(RowFor(db, req).moduleId, ReleaseOf(req.bound.candidate))
  {
    hide NextOrder, ValidSingle, ValidKey, DependencyRows, RowHolds, UniqueRows, DependenciesOwned;
    IntentNamesCandidate(req);
    DenseNext(db, req.bound.intent.moduleId);
  }

  lemma AfterKeepsOthers(db: Db, req: Request, other: string)
    requires other != req.bound.intent.moduleId
    ensures SameSlice(db, After(db, req), other)
  {
    hide SameSlice, Apply, Moved;
    var i := req.bound.intent;
    var n, rev := NextOrder(db, i.moduleId), RevisionOf(db, i.moduleId, i.channel) + 1;
    var record := EventWrite(EventFor(req, PointerOf(db, i.moduleId, i.channel), rev));
    MovedKeepsOthers(db, req, n, rev, other);
    ForeignKeepsSlice(Moved(db, req, n, rev), record, other);
    SliceTransitive(db, Moved(db, req, n, rev), After(db, req), other);
  }

  /** The joined pointers of the module change in exactly the promoted channel. */
  lemma AfterChannelMap(db: Db, req: Request)
    requires Ready(db, req) && RowsWell(db)
    requires forall c: Channel | (req.bound.intent.moduleId, c) in db.channels ::
               FindRow(db.versions, req.bound.intent.moduleId,
                 db.channels[(req.bound.intent.moduleId, c)].version).Some?
    ensures ChannelMap(After(db, req), req.bound.intent.moduleId) ==
            ChannelMap(db, req.bound.intent.moduleId)
              [req.bound.intent.channel := TargetOf(ReleaseOf(req.bound.candidate))]
  {
    hide NextOrder, ValidSingle, ValidKey, RowsWell, FindRow, DependencyRows, ChannelMap;
    var i, b := req.bound.intent, After(db, req);
    AfterInserts(db, req);
    IntentNamesCandidate(req);
    forall v ensures FindRow(b.versions, i.moduleId, v) ==
                     if FindRow(db.versions, i.moduleId, v).Some? then FindRow(db.versions, i.moduleId, v)
                     else if i.version == v then Some(RowFor(db, req)) else None
    {
      InsertedFind(db, b, RowFor(db, req), ReleaseOf(req.bound.candidate), i.moduleId, v);
    }
    MovedChannelMap(db, b, i.moduleId, i.channel, Pointer(i.version, RevisionOf(db, i.moduleId, i.channel) + 1));
  }

  lemma ProjectedVersion(db: Db, id: string, x: Release)
    requires x in Project(db, id)
    ensures FindRow(db.versions, id, x.version).Some?
  {
    var rows := RowsOf(db, id);
    SortPermutes(Filter(db.versions, OfModule(id)));
    var k :| 0 <= k < |rows| && Project(db, id)[k] == x;
    assert rows[k] in rows;
  }

  /**
   The own-module part of the final check passes exactly when the promoted release is
   strictly newer than every release already on its channel.
   */
  lemma OwnModuleCheck(db: Db, req: Request)
    requires Ready(db, req) && Inv(db)
    ensures PointersAgree(After(db, req), req.bound.intent.moduleId) <==>
            forall x | x in Project(db, req.bound.intent.moduleId) && x.channel == req.bound.intent.channel ::
              Before(x.version, req.bound.intent.version)
  {
    hide Ready, RowsWell, After, EventHolds, UniqueEvents, PromotedRecorded, Project, ChannelMap, ChannelsOf, Before,
      TargetOf;
    var id, r := req.bound.intent.moduleId, ReleaseOf(req.bound.candidate);
    ReadyParts(db, req);
    AfterChannelMap(db, req);
    AfterInserts(db, req);
    RowsWellParts(db, id);
    InsertProjects(db, After(db, req), RowFor(db, req), r);
    forall x | x in Project(db, id) ensures x.version != r.version { ProjectedVersion(db, id, x); }
    AppendMovesPointer(Project(db, id), r);
    assert PointersAgree(db, id);
  }

  lemma ReadyParts(db: Db, req: Request)
    requires Ready(db, req)
    ensures FindRow(db.versions, req.bound.intent.moduleId, req.bound.intent.version).None?
    ensures CheckIntent(req.bound).None?
    ensures ReleaseOf(req.bound.candidate).version == req.bound.intent.version
    ensures ReleaseOf(req.bound.candidate).channel == req.bound.intent.channel
    ensures RowFor(db, req).moduleId == req.bound.intent.moduleId
  {
    IntentNamesCandidate(req);
  }

  lemma RowsWellParts(db: Db, id: string)
    requires RowsWell(db)
    ensures DenseOrder(db, id) && DependenciesOwned(db) && UniqueRows(db)
  {}

  // ----- Every clause is kept -----

  /** The passed check of the own slice, carried from the view to the committed tables. */
  lemma OwnModuleAgrees(db: Db, view: Db, req: Request)
    requires ViewFor(db, view, req) && Admitted(view, req)
    ensures PointersAgree(After(db, req), req.bound.intent.moduleId)
  {
    hide Moved, FindRow, NextOrder, ReleaseOf, ProvenanceOf, Project, ChannelMap, ChannelsOf, StorageFits,
      CheckIntent, CheckStored, Representable, After, SameSlice;
    var i := req.bound.intent;
    var n, rev := NextOrder(view, i.moduleId), RevisionOf(view, i.moduleId, i.channel) + 1;
    ViewAgrees(db, view, req);
    MovedSlice(db, view, req, n, rev);
    AdmittedModule(view, req);
    MovedPublished(view, req, n, rev);
    RepresentableAgrees(Moved(view, req, n, rev), i.moduleId);
    SliceProjection(Moved(db, req, n, rev), Moved(view, req, n, rev), i.moduleId);
    AfterMovedSlice(db, req);
    SliceProjection(After(db, req), Moved(db, req, n, rev), i.moduleId);
  }

  lemma MovedPublished(db: Db, req: Request, n: nat, rev: nat)
    ensures req.bound.intent.moduleId in PublishedIds(Moved(db, req, n, rev))
    ensures Moved(db, req, n, rev).modules == db.modules
  {
    var future := Moved(db, req, n, rev);
    assert future.versions[|db.versions|] in future.versions;
  }

  lemma AfterMovedSlice(db: Db, req: Request)
    ensures var i := req.bound.intent;
            SameSlice(After(db, req),
              Moved(db, req, NextOrder(db, i.moduleId), RevisionOf(db, i.moduleId, i.channel) + 1), i.moduleId)
  {
    hide Moved, NextOrder, RevisionOf;
  }

  lemma AdmittedModule(view: Db, req: Request)
    requires Admitted(view, req)
    ensures req.bound.intent.moduleId in view.modules
  {
    IntentNamesCandidate(req);
  }

  lemma AfterPointersAgree(db: Db, view: Db, req: Request)
    requires Inv(db) && ViewFor(db, view, req) && Admitted(view, req)
    ensures forall id :: PointersAgree(After(db, req), id)
  {
    hide ViewFor, Admitted, After, RowsWell, EventHolds, UniqueEvents, PromotedRecorded, Project, ChannelMap,
      ChannelsOf;
    forall id ensures PointersAgree(After(db, req), id) {
      if id == req.bound.intent.moduleId {
        OwnModuleAgrees(db, view, req);
      } else {
        AfterKeepsOthers(db, req, id);
        SliceProjection(db, After(db, req), id);
        assert PointersAgree(db, id);
      }
    }
  }

  lemma AfterPointersJoin(db: Db, req: Request)
    requires Ready(db, req) && RowsWell(db) && PointersJoin(db)
    ensures PointersJoin(After(db, req))
  {
    hide NextOrder, ValidSingle, RowsWell, FindRow, DependencyRows;
    var i, b := req.bound.intent, After(db, req);
    AfterInserts(db, req);
    IntentNamesCandidate(req);
    forall k | k in b.channels
      ensures k.0 in b.modules && FindRow(b.versions, k.0, b.channels[k].version).Some?
    {
      InsertedFind(db, b, RowFor(db, req), ReleaseOf(req.bound.candidate), k.0, b.channels[k].version);
    }
  }

  lemma OldEventHolds(db: Db, req: Request, e: Event)
    requires Ready(db, req) && RowsWell(db) && EventHolds(db, e)
    ensures EventHolds(After(db, req), e)
  {
    hide NextOrder, ValidSingle, RowsWell, FindRow, DependencyRows, ReleaseStructure, CheckIntent, ReleaseOf;
    var b, c := After(db, req), e.intent.candidate;
    AfterInserts(db, req);
    InsertedFind(db, b, RowFor(db, req), ReleaseOf(req.bound.candidate), e.intent.intent.moduleId, c.version);
    var row := FindRow(db.versions, e.intent.intent.moduleId, c.version).value;
    FindRowKey(db.versions, e.intent.intent.moduleId, c.version);
    InsertedFind(db, b, RowFor(db, req), ReleaseOf(req.bound.candidate), row.moduleId, row.version);
    ReadyFree(db, req);
    InsertedOld(db, b, RowFor(db, req), ReleaseOf(req.bound.candidate), row);
  }

  lemma FindRowKey(rows: seq<VersionRow>, id: string, v: Version)
    requires FindRow(rows, id, v).Some?
    ensures var x := FindRow(rows, id, v).value; x in rows && x.moduleId == id && x.version == v
  {}

  lemma ReadyFree(db: Db, req: Request)
    requires Ready(db, req)
    ensures FindRow(db.versions, RowFor(db, req).moduleId, RowFor(db, req).version).None?
  {
    IntentNamesCandidate(req);
  }

  lemma NewEventHolds(db: Db, req: Request, previous: Option<Version>, revision: nat)
    requires Ready(db, req) && RowsWell(db)
    ensures EventHolds(After(db, req), EventFor(req, previous, revision))
  {
    hide NextOrder, ValidSingle, FindRow, DependencyRows, ReleaseStructure;
    var b := After(db, req);
    AfterInserts(db, req);
    IntentNamesCandidate(req);
    RowsWellParts(db, req.bound.intent.moduleId);
    InsertedFind(db, b, RowFor(db, req), ReleaseOf(req.bound.candidate), req.bound.intent.moduleId,
      req.bound.intent.version);
    InsertedNew(db, b, RowFor(db, req), ReleaseOf(req.bound.candidate));
  }

  lemma AfterEvents(db: Db, req: Request)
    requires Ready(db, req) && UniqueEvents(db) && PromotedRecorded(db)
    ensures UniqueEvents(After(db, req)) && PromotedRecorded(After(db, req))
  {
    hide NextOrder, ValidSingle, DependencyRows, CheckModule, CheckStored, FindRow, PublicUrl, RelativePath,
      PointerOf, RevisionOf, StorageFits;
    var b := After(db, req);
    IntentNamesCandidate(req);
    assert forall k | 0 <= k < |db.events| :: db.events[k] in db.events;
    var e := b.events[|db.events|];
    assert e in b.events;
    forall r | r in b.versions && r.promoted ensures EventOfVersion(b.events, r.moduleId, r.version).Some? {
      if r in db.versions {
        var old_ := EventOfVersion(db.events, r.moduleId, r.version).value;
        assert old_ in b.events;
      } else {
        assert r == RowFor(db, req);
      }
    }
  }

  lemma AfterLocated(db: Db, req: Request)
    requires Ready(db, req) && PromotedLocated(db) && ImportedPublished(db)
    ensures PromotedLocated(After(db, req)) && ImportedPublished(After(db, req))
  {
    hide NextOrder, ValidSingle, ValidKey, DependencyRows, FindRow, ProvenanceOf, EventFor, CheckModule;
    IntentNamesCandidate(req);
    var b := After(db, req);
    forall r | r in b.versions && r.promoted ensures r.digest in b.artifacts && b.artifacts[r.digest].locator.Some? {
      assert r in db.versions || r == RowFor(db, req);
    }
    forall id | id in b.modules ensures exists r :: r in b.versions && r.moduleId == id && !r.promoted {
      var r :| r in db.versions && r.moduleId == id && !r.promoted;
      assert r in b.versions;
    }
  }

  lemma ViewReady(db: Db, view: Db, req: Request)
    requires ViewFor(db, view, req) && Admitted(view, req)
    ensures Ready(db, req)
  {
    hide Representable, ViewFor, ValidSingle, ValidKey, FindRow, StorageFits;
    ViewAgrees(db, view, req);
  }

  /**
   A committed promotion keeps the invariant, although nothing is assumed of what the
   transaction saw of other modules. Its effect on the committed tables is After.
   */
  lemma PromotionKeepsInv(db: Db, view: Db, req: Request)
    requires Inv(db) && ViewFor(db, view, req) && IsFresh(view, req)
    ensures ApplyAll(db, Promotion(view, req).value.1) == After(db, req)
    ensures Promotion(view, req).value.0 ==
            EventFor(req, PointerOf(db, req.bound.intent.moduleId, req.bound.intent.channel),
                     RevisionOf(db, req.bound.intent.moduleId, req.bound.intent.channel) + 1).result
    ensures Ready(db, req)
    ensures Inv(After(db, req))
  {
    hide PromotedLocated, ImportedPublished, Promotion, ViewFor, Admitted, Committed, Ready, RowsWell, PointersAgree,
      EventHolds, UniqueEvents, PromotedRecorded, ReleaseOf, RowFor, PointersJoin, EventFor, NextOrder, Inserted,
      TakesNextPlace, ValidSingle, FindEvent, PointerOf, RevisionOf;
    FreshCommits(view, req, db);
    ViewAgrees(db, view, req);
    ViewReady(db, view, req);
    AfterInserts(db, req);
    InsertKeepsRows(db, After(db, req), RowFor(db, req), ReleaseOf(req.bound.candidate));
    AfterPointersAgree(db, view, req);
    AfterPointersJoin(db, req);
    AfterEvents(db, req);
    AfterLocated(db, req);
    var i := req.bound.intent;
    var e := EventFor(req, PointerOf(db, i.moduleId, i.channel), RevisionOf(db, i.moduleId, i.channel) + 1);
    NewEventHolds(db, req, PointerOf(db, i.moduleId, i.channel), RevisionOf(db, i.moduleId, i.channel) + 1);
    AfterAddsEvent(db, req);
    forall x | x in After(db, req).events ensures EventHolds(After(db, req), x) {
      if x in db.events { OldEventHolds(db, req, x); } else { assert x == e; }
    }
  }

  lemma AfterAddsEvent(db: Db, req: Request)
    ensures var i := req.bound.intent;
            After(db, req).events == db.events +
              [EventFor(req, PointerOf(db, i.moduleId, i.channel), RevisionOf(db, i.moduleId, i.channel) + 1)]
  {
    hide ReleaseOf, NextOrder, DependencyRows, RowOf, EventFor, PointerOf, RevisionOf;
  }
}

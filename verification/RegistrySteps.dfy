/**
 One step of the registry: a committed or refused transaction, with whatever view the locks
 allow. Each step keeps the invariant and only ever adds.
 */
module RegistrySteps {
  import opened ArtifactPaths
  import opened RegistryCommit
  import opened RegistryDocuments
  import opened RegistryGuards
  import opened RegistryImport
  import opened RegistryImportLaws
  import opened RegistryInvariant
  import opened RegistryLoading
  import opened RegistryOverlap
  import opened RegistryPromotion
  import opened RegistryRepository
  import opened RegistryRows
  import opened RegistryTables
  import opened SemVer
  import opened StableSort
  import opened Wrappers

  datatype Act = ImportAct(source: seq<ModuleDoc>, seen: Db) | PromoteAct(req: Request, view: Db)

  /** What the store reports is computed from the identity that it was asked for. */
  predicate FromStore(req: Request) {
    var i := req.bound.intent;
    req.stored == Metadata(i.moduleId, i.version, i.bundleSha256, req.stored.byteSize)
  }

  /** The committed tables before and after one transaction. */
  ghost predicate Step(db: Db, act: Act, db': Db) {
    match act
    case ImportAct(ms, seen) =>
      ImportViewFor(db, seen, ms)
      && (match Import(seen, ms) case Err(_) => db' == db case Ok((d, _)) => db' == Merge(db, seen, d))
    case PromoteAct(req, view) =>
      ViewFor(db, view, req) && FromStore(req)
      && (match Promotion(view, req) case Err(_) => db' == db case Ok((_, log)) => db' == ApplyAll(db, log))
  }

  // ----- Retries -----

  lemma ViewEvents(db: Db, view: Db, req: Request)
    requires ViewFor(db, view, req)
    ensures var i := req.bound.intent;
            && FindEvent(view.events, i.key) == FindEvent(db.events, i.key)
            && EventOfVersion(view.events, i.moduleId, i.version) == EventOfVersion(db.events, i.moduleId, i.version)
  {
    hide SameSlice;
    var i := req.bound.intent;
    FindEventConcerned(db.events, i.moduleId, i.key, i.version);
    FindEventConcerned(view.events, i.moduleId, i.key, i.version);
  }

  lemma RecordedInsertIsNoOp(view: Db, id: string, c: Candidate)
    requires id in view.modules && ValidSingle(id, ReleaseOf(c)) && PromotedAs(view, id, c)
    ensures InsertVersion(view, id, ReleaseOf(c), None, Some(ProvenanceOf(c))) == Ok(([], false))
  {
    hide FindRow, ReleaseStructure, ProvenanceOf, ValidSingle;
  }

  lemma PromotedInView(db: Db, view: Db, id: string, c: Candidate)
    requires SameSlice(db, view, id) && PromotedAs(db, id, c)
    ensures PromotedAs(view, id, c)
  {
    hide SameSlice, ReleaseStructure, ReleaseOf, ProvenanceOf;
    SliceFindRow(db, view, id, c.version);
    SliceRelease(db, view, FindRow(db.versions, id, c.version).value);
  }

  /**
   The same bound intent, presented again at any later time, gets the recorded result marked
   already-published and writes nothing at all.
   */
  lemma RetryAnswers(db: Db, view: Db, req: Request, e: Event)
    requires Inv(db) && ViewFor(db, view, req) && FromStore(req)
    requires FindEvent(db.events, req.bound.intent.key) == Some(e) && e.intent == req.bound
    ensures Promotion(view, req) == Ok((e.result.(status := AlreadyPublished), []))
  {
    hide RowsWell, PointersAgree, PointersJoin, UniqueEvents, PromotedRecorded, Fresh, InsertVersion,
      ReleaseStructure, FindRow, ProvenanceOf, ValidSingle, SameSlice, PromotedAs, ValidKey;
    var i, c := req.bound.intent, req.bound.candidate;
    assert EventHolds(db, e);
    IntentNamesCandidate(req);
    ViewEvents(db, view, req);
    ModuleInView(db, view, c);
    PromotedInView(db, view, i.moduleId, c);
    RecordedInsertIsNoOp(view, i.moduleId, c);
  }

  lemma ModuleInView(db: Db, view: Db, c: Candidate)
    requires SameSlice(db, view, c.moduleId)
    ensures CheckModule(db, c) == CheckModule(view, c)
    ensures CheckModule(db, c).None? ==>
            c.moduleId in db.modules && c.moduleId in view.modules && ValidSingle(c.moduleId, ReleaseOf(c))
  {
    hide ValidSingle;
  }

  /** The same key with any other bound intent never commits. */
  lemma KeyReuseRefused(db: Db, view: Db, req: Request, e: Event)
    requires ViewFor(db, view, req)
    requires FindEvent(db.events, req.bound.intent.key) == Some(e) && e.intent != req.bound
    ensures Promotion(view, req).Err?
  {
    hide ViewFor, CheckIntent, CheckStored, CheckModule, Fresh, InsertVersion;
    ViewEvents(db, view, req);
  }

  /** A second key for a promoted version never commits. */
  lemma SecondKeyRefused(db: Db, view: Db, req: Request)
    requires ViewFor(db, view, req)
    requires FindEvent(db.events, req.bound.intent.key).None?
    requires EventOfVersion(db.events, req.bound.intent.moduleId, req.bound.intent.version).Some?
    ensures Promotion(view, req).Err?
  {
    hide ViewFor, CheckIntent, CheckStored, CheckModule, Retry, Finish, StorageFits;
    ViewEvents(db, view, req);
  }

  /** A committed promotion is either a retry that writes nothing or a fresh one. */
  lemma RecordedWritesNothing(db: Db, view: Db, req: Request)
    requires Inv(db) && ViewFor(db, view, req) && FromStore(req) && Promotion(view, req).Ok? && !IsFresh(view, req)
    ensures Promotion(view, req).value.1 == []
    ensures FindEvent(db.events, req.bound.intent.key).Some?
            && FindEvent(db.events, req.bound.intent.key).value.intent == req.bound
  {
    hide Inv, Promotion, ViewFor;
    ViewEvents(db, view, req);
    var e := FindEvent(db.events, req.bound.intent.key).value;
    if e.intent == req.bound {
      RetryAnswers(db, view, req, e);
    } else {
      KeyReuseRefused(db, view, req, e);
    }
  }

  /** An import that commits has seen exactly the committed tables, and no promotion has committed before. */
  lemma ImportCommits(db: Db, act: Act, db': Db)
    requires Inv(db) && Step(db, act, db') && act.ImportAct?
    ensures db' == db
            || (&& db.events == [] && act.seen == db
                && Import(db, act.source).Ok? && db' == Import(db, act.source).value.0)
  {
    hide Inv, Load, Tidy, ProjectV1, ChannelTargets, Expected, ExpectedChannels, Merge;
    if db.events != [] {
      ImportLockedOut(db, act.seen, act.source);
    } else if Import(db, act.source).Ok? {
      InvTidy(db);
      MergeSame(db, act.source);
    }
  }

  // ----- Every step keeps the invariant -----

  lemma StepKeepsInv(db: Db, act: Act, db': Db)
    requires Inv(db) && Step(db, act, db')
    ensures Inv(db')
  {
    hide Inv, Promotion, Import, Merge, ImportViewFor, ViewFor, FromStore, After, Ready;
    match act
    case ImportAct(ms, _) =>
      ImportCommits(db, act, db');
      if db' != db { ImportKeepsInv(db, ms); }
    case PromoteAct(req, view) =>
      if Promotion(view, req).Ok? {
        if IsFresh(view, req) {
          PromotionKeepsInv(db, view, req);
        } else {
          RecordedWritesNothing(db, view, req);
          ApplyAllNone(db);
        }
      }
  }

  // ----- Every step only adds -----

  ghost predicate PointerAdvances(p: Pointer, q: Pointer) {
    p == q || (p.revision < q.revision && Before(p.version, q.version))
  }

  /**
   Publishers, modules, versions and events are kept, each module's releases grow at their
   end, every row reads back as before, and no pointer is removed, rewound or moved sideways.
   */
  ghost predicate Advances(a: Db, b: Db) {
    && Extends(a.publishers, b.publishers) && Extends(a.modules, b.modules)
    && FoundKept(a, b) && a.events <= b.events
    && (forall id :: Project(a, id) <= Project(b, id))
    && (forall k | k in a.channels :: k in b.channels && PointerAdvances(a.channels[k], b.channels[k]))
  }

  lemma AdvancesReflexive(db: Db)
    ensures Advances(db, db)
  {
    hide Project, FindRow, ReleaseStructure;
  }

  lemma AdvancesTransitive(a: Db, b: Db, c: Db)
    requires Advances(a, b) && Advances(b, c)
    ensures Advances(a, c)
  {
    hide Project, FindRow, ReleaseStructure, Before;
    FoundKeptTransitive(a, b, c);
    forall id ensures Project(a, id) <= Project(c, id) {
      assert Project(a, id) <= Project(b, id) && Project(b, id) <= Project(c, id);
    }
    forall k | k in a.channels ensures k in c.channels && PointerAdvances(a.channels[k], c.channels[k]) {
      assert k in b.channels && PointerAdvances(b.channels[k], c.channels[k]);
      PrecedenceIsTotalPreorder(a.channels[k].version, b.channels[k].version, c.channels[k].version);
    }
  }

  lemma FoundKeptTransitive(a: Db, b: Db, c: Db)
    requires FoundKept(a, b) && FoundKept(b, c)
    ensures FoundKept(a, c)
  {
    hide FindRow, ReleaseStructure;
    forall id, v | FindRow(a.versions, id, v).Some?
      ensures FindRow(c.versions, id, v) == FindRow(a.versions, id, v)
      ensures ReleaseStructure(c, FindRow(a.versions, id, v).value) ==
              ReleaseStructure(a, FindRow(a.versions, id, v).value)
    {
      assert FindRow(b.versions, id, v) == FindRow(a.versions, id, v);
    }
  }

  lemma PointerIsCurrent(db: Db, id: string, c: Channel)
    requires PointersJoin(db) && PointersAgree(db, id) && (id, c) in db.channels
    ensures exists x :: x in Project(db, id) && x.channel == c && x.version == db.channels[(id, c)].version
  {
    hide FindRow, Current, Project;
    assert (id, c).0 == id;
    assert c in ChannelMap(db, id);
    CurrentDominates(Project(db, id), c);
    assert c in ChannelsOf(Project(db, id));
    var x := Current(Project(db, id), c).value;
    assert x in Project(db, id) && x.channel == c;
  }

  /** A committed promotion onto an existing channel moves it to strictly higher precedence. */
  lemma PromotionAdvancesPointer(db: Db, view: Db, req: Request)
    requires Inv(db) && ViewFor(db, view, req) && IsFresh(view, req)
    requires PointerOf(db, req.bound.intent.moduleId, req.bound.intent.channel).Some?
    ensures Before(PointerOf(db, req.bound.intent.moduleId, req.bound.intent.channel).value, req.bound.intent.version)
  {
    hide RowsWell, PointersAgree, EventHolds, UniqueEvents, PromotedRecorded, ViewFor, IsFresh, Promotion, After,
      Ready, PointersJoin, Project, Before;
    PromotionKeepsInv(db, view, req);
    AfterNewest(db, req);
    PointerIsCurrent(db, req.bound.intent.moduleId, req.bound.intent.channel);
  }

  lemma AfterFound(db: Db, req: Request)
    requires Ready(db, req) && RowsWell(db)
    ensures FoundKept(db, After(db, req))
  {
    hide Ready, RowsWell, After, FindRow, ReleaseStructure, Inserted, ReleaseOf, RowFor, ValidSingle;
    AfterInserts(db, req);
    forall id, v | FindRow(db.versions, id, v).Some?
      ensures FindRow(After(db, req).versions, id, v) == FindRow(db.versions, id, v)
      ensures ReleaseStructure(After(db, req), FindRow(db.versions, id, v).value) ==
              ReleaseStructure(db, FindRow(db.versions, id, v).value)
    {
      InsertedFind(db, After(db, req), RowFor(db, req), ReleaseOf(req.bound.candidate), id, v);
      InsertedRowKept(db, After(db, req), RowFor(db, req), ReleaseOf(req.bound.candidate),
        FindRow(db.versions, id, v).value);
    }
  }

  lemma AfterProjects(db: Db, req: Request, id: string)
    requires Ready(db, req) && RowsWell(db)
    ensures Project(db, id) <= Project(After(db, req), id)
  {
    hide Ready, RowsWell, After, Project, Inserted, ReleaseOf, RowFor, ValidSingle, TakesNextPlace;
    AfterInserts(db, req);
    var row := RowFor(db, req);
    RowsWellParts(db, row.moduleId);
    if id == row.moduleId {
      InsertProjects(db, After(db, req), row, ReleaseOf(req.bound.candidate));
    } else {
      InsertLeavesProjection(db, After(db, req), row, ReleaseOf(req.bound.candidate), id);
    }
  }

  lemma AfterChannels(db: Db, req: Request)
    ensures var i := req.bound.intent;
            After(db, req).channels == db.channels[(i.moduleId, i.channel) :=
              Pointer(i.version, RevisionOf(db, i.moduleId, i.channel) + 1)]
    ensures After(db, req).publishers == db.publishers && After(db, req).modules == db.modules
    ensures db.events <= After(db, req).events
  {
    hide RowOf, NextOrder, ReleaseOf, DependencyRows, EventFor, ProvenanceOf;
    AfterPointer(db, req);
  }

  lemma AfterAdvances(db: Db, view: Db, req: Request)
    requires Inv(db) && ViewFor(db, view, req) && IsFresh(view, req)
    ensures Advances(db, After(db, req))
  {
    hide Inv, ViewFor, IsFresh, Promotion, After, Ready, Project, Before, RowsWell, FoundKept;
    PromotionKeepsInv(db, view, req);
    InvRowsWell(db);
    AfterFound(db, req);
    forall id ensures Project(db, id) <= Project(After(db, req), id) { AfterProjects(db, req, id); }
    AfterChannels(db, req);
    var i := req.bound.intent;
    if (i.moduleId, i.channel) in db.channels { PromotionAdvancesPointer(db, view, req); }
  }

  lemma InvRowsWell(db: Db)
    requires Inv(db)
    ensures RowsWell(db) && PointersJoin(db) && PromotedRecorded(db) && UniqueEvents(db)
    ensures forall e | e in db.events :: EventHolds(db, e)
  {}

  lemma ImportAdvances(db: Db, ms: seq<ModuleDoc>)
    requires Inv(db) && db.events == [] && Import(db, ms).Ok?
    ensures Advances(db, Import(db, ms).value.0)
  {
    hide Inv, Load, Loaded, Parity, ProjectV1, ChannelTargets, Expected, ExpectedChannels, Project, FoundKept,
      RowsWell, PointersJoin, PromotedRecorded, UniqueEvents, EventHolds;
    var d := Import(db, ms).value.0;
    InvTidy(db);
    LoadLoads(db, ms);
    ImportKeepsInv(db, ms);
    InvRowsWell(db);
    InvRowsWell(d);
    LoadedAdds(db, d, ms);
    LoadExtends(db, ms);
    forall id ensures Project(db, id) <= Project(d, id) { FoundGrows(db, d, id); }
  }

  lemma LoadedAdds(db: Db, d: Db, ms: seq<ModuleDoc>)
    requires Loaded(db, d, ms)
    ensures FoundKept(db, d) && d.events == db.events && Extends(db.modules, d.modules)
            && Extends(db.channels, d.channels)
  {}

  /** Rows that are kept with their place make the releases of a module a prefix of the later ones. */
  lemma FoundGrows(a: Db, b: Db, id: string)
    requires RowsWell(a) && RowsWell(b) && FoundKept(a, b)
    ensures Project(a, id) <= Project(b, id)
  {
    hide FindRow, ReleaseStructure, DependenciesOwned, RowHolds;
    var old_, new_ := RowsOf(a, id), RowsOf(b, id);
    SortPermutes(Filter(a.versions, OfModule(id)));
    forall i | 0 <= i < |old_|
      ensures i < |new_| && new_[i] == old_[i] && ReleaseStructure(b, new_[i]) == ReleaseStructure(a, old_[i])
    {
      var r := old_[i];
      assert r in old_;
      FindRowUnique(a.versions, r);
      assert FindRow(b.versions, id, r.version) == Some(r);
      FindRowKey(b.versions, id, r.version);
      assert DenseOrder(a, id) && DenseOrder(b, id);
      DenseRow(b, id, r);
    }
    if |old_| > 0 {
      var last := old_[|old_| - 1];
      assert |old_| <= |new_|;
    }
  }

  lemma StepAdvances(db: Db, act: Act, db': Db)
    requires Inv(db) && Step(db, act, db')
    ensures Advances(db, db')
  {
    hide Inv, Promotion, Import, Merge, ImportViewFor, ViewFor, FromStore, After, Ready, Advances;
    AdvancesReflexive(db);
    match act
    case ImportAct(ms, _) =>
      ImportCommits(db, act, db');
      if db' != db { ImportAdvances(db, ms); }
    case PromoteAct(req, view) =>
      if Promotion(view, req).Ok? {
        if IsFresh(view, req) {
          PromotionKeepsInv(db, view, req);
          AfterAdvances(db, view, req);
        } else {
          RecordedWritesNothing(db, view, req);
          ApplyAllNone(db);
        }
      }
  }

  // ----- Committed promotions -----

  /** The step is a promotion that committed under a new key: it appended an event. */
  ghost predicate Promotes(db: Db, act: Act, db': Db) {
    act.PromoteAct? && Step(db, act, db') && db'.events != db.events
  }

  lemma PromotesFresh(db: Db, act: Act, db': Db)
    requires Inv(db) && Promotes(db, act, db')
    ensures ViewFor(db, act.view, act.req) && FromStore(act.req)
    ensures IsFresh(act.view, act.req) && Promotion(act.view, act.req).Ok?
    ensures db' == ApplyAll(db, Promotion(act.view, act.req).value.1) == After(db, act.req)
    ensures Ready(db, act.req) && Inv(db')
  {
    hide Inv, Promotion, ViewFor, FromStore, IsFresh, After, Ready;
    if !IsFresh(act.view, act.req) {
      RecordedWritesNothing(db, act.view, act.req);
      ApplyAllNone(db);
    }
    FreshIsCommitted(act.view, act.req);
    PromotionKeepsInv(db, act.view, act.req);
  }

  lemma FreshIsCommitted(view: Db, req: Request)
    ensures IsFresh(view, req) ==> Promotion(view, req).Ok?
  {}

  /** A committed promotion onto an existing channel moves it to strictly higher precedence and the next revision. */
  lemma CommitAdvancesPointer(db: Db, act: Act, db': Db)
    requires Inv(db) && Promotes(db, act, db')
    ensures var k := (act.req.bound.intent.moduleId, act.req.bound.intent.channel);
            && k in db'.channels && db'.channels[k].version == act.req.bound.intent.version
            && (k in db.channels ==>
                  && Before(db.channels[k].version, db'.channels[k].version)
                  && db'.channels[k].revision == db.channels[k].revision + 1)
  {
    hide Inv, Promotion, ViewFor, FromStore, IsFresh, After, Ready, Before, Step;
    PromotesFresh(db, act, db');
    AfterPointer(db, act.req);
    var i := act.req.bound.intent;
    if (i.moduleId, i.channel) in db.channels { PromotionAdvancesPointer(db, act.view, act.req); }
  }

  /**
   A committed promotion publishes exactly the reviewed candidate: one release more at the end
   of its module, its pointer on it, every other pointer and every other module as before.
   */
  lemma CommitPublishes(db: Db, act: Act, db': Db)
    requires Inv(db) && Promotes(db, act, db')
    ensures var i, c := act.req.bound.intent, act.req.bound.candidate;
            && (exists r :: IsReleaseOf(r, c) && Project(db', i.moduleId) == Project(db, i.moduleId) + [r])
            && (forall id | id != i.moduleId ::
                  Project(db', id) == Project(db, id) && ChannelMap(db', id) == ChannelMap(db, id))
            && db'.channels == db.channels[(i.moduleId, i.channel) := Pointer(i.version, i.expectedRevision + 1)]
  {
    hide Inv, Promotion, ViewFor, FromStore, IsFresh, After, Ready, Step, Project, ChannelMap, IsReleaseOf;
    PromotesFresh(db, act, db');
    PromotionPublishes(db, act.view, act.req);
  }

  /**
   What a committed promotion was, whatever it saw of other modules: well-formed, the reviewed
   candidate of the stored bytes, from the registered repository and of the registered
   classification, new, at the approved revision and strictly newest on its channel.
   */
  lemma CommitMatches(db: Db, act: Act, db': Db)
    requires Inv(db) && Promotes(db, act, db')
    ensures var i, c := act.req.bound.intent, act.req.bound.candidate;
            && KeyForm(i.key) && NamesCandidate(act.req.bound) && StoredAsApproved(act.req)
            && Registered(db, c) && ReleaseRules(c)
            && KeyFree(db, i) && VersionFree(db, i) && RowFree(db, i) && AtRevision(db, i) && NewestOnChannel(db, i)
  {
    hide Inv, Promotion, ViewFor, FromStore, IsFresh, After, Ready, Step, KeyForm, NamesCandidate, StoredAsApproved,
      Registered, ReleaseRules, KeyFree, VersionFree, RowFree, AtRevision, NewestOnChannel;
    PromotesFresh(db, act, db');
    PromotionMatches(db, act.view, act.req);
  }

  /** What a committed promotion stores: the version row with its evidence, the artifact's storage, the dependencies. */
  lemma CommitStores(db: Db, act: Act, db': Db)
    requires Inv(db) && Promotes(db, act, db')
    ensures var i, c, stored := act.req.bound.intent, act.req.bound.candidate, act.req.stored;
            && (exists row ::
                  && IsRowOf(row, c, |Filter(db.versions, OfModule(i.moduleId))|)
                  && db'.versions == db.versions + [row])
            && db'.artifacts == db.artifacts[i.bundleSha256 := ArtifactRow(Some(stored.byteSize), Some(stored.locator))]
            && db'.publishers == db.publishers && db'.modules == db.modules
            && AddsDependencies(db, db', c)
  {
    hide Inv, Promotion, ViewFor, FromStore, IsFresh, After, Ready, Step, IsRowOf, AddsDependencies, NextOrder,
      RowsWell;
    PromotesFresh(db, act, db');
    AfterStores(db, act.req);
    InvWell(db);
    RowsWellParts(db, act.req.bound.intent.moduleId);
    DenseNext(db, act.req.bound.intent.moduleId);
  }

  /** The appended event and its result name the target, the one it replaced, the revision and the stored bytes. */
  lemma CommitReports(db: Db, act: Act, db': Db)
    requires Inv(db) && Promotes(db, act, db')
    ensures var i := act.req.bound.intent;
            && |db'.events| == |db.events| + 1 && db.events == db'.events[..|db.events|]
            && var e := db'.events[|db.events|];
               && e.key == e.result.promotionId == i.key && e.intent == act.req.bound
               && e.moduleId == e.result.moduleId == i.moduleId && e.version == e.result.target == i.version
               && e.previous == e.result.previous == PointerOf(db, i.moduleId, i.channel)
               && e.result.revision == i.expectedRevision + 1 && e.result.status == Published
               && e.result.sha256 == i.bundleSha256 && e.result.url == ArtifactPaths.PublicUrl(i.moduleId, i.version)
               && e.result.locator == act.req.stored.locator && e.result.byteSize == act.req.stored.byteSize
  {
    hide Inv, Promotion, ViewFor, FromStore, IsFresh, After, Ready, Step, RevisionOf, PointerOf,
      ArtifactPaths.PublicUrl;
    PromotesFresh(db, act, db');
    AfterAddsEvent(db, act.req);
    ReadyRelease(db, act.req);
  }
}

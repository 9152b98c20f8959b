/**
 Whether two promoted versions can share a bundle digest. They cannot while each promotion
 finds the committed artifact row unbound; a row read before another promotion bound it does
 let two versions share one, and the condition below is exact.
 */
module RegistryDigests {
  import opened ArtifactPaths
  import opened Digests
  import RegistryAudit
  import opened RegistryDocuments
  import opened RegistryImport
  import opened RegistryImportLaws
  import opened RegistryInvariant
  import opened RegistryLoading
  import opened RegistryOverlap
  import opened RegistryPromotion
  import opened RegistryRepository
  import opened RegistryRows
  import opened RegistryRuns
  import opened RegistrySteps
  import opened RegistryTables
  import opened Wrappers

  ghost predicate DigestsUnshared(db: Db) {
    forall r, s | r in db.versions && s in db.versions && r.promoted && s.promoted && r.digest == s.digest ::
      r.moduleId == s.moduleId && r.version == s.version
  }

  predicate BoundHere(db: Db, r: VersionRow) {
    r.digest in db.artifacts && db.artifacts[r.digest].locator == Some(RelativePath(r.moduleId, r.version))
  }

  ghost predicate LocatorsBound(db: Db) { forall r | r in db.versions && r.promoted :: BoundHere(db, r) }

  ghost predicate HasPromoted(db: Db, d: Digest) { exists r :: r in db.versions && r.promoted && r.digest == d }

  ghost predicate LocatorsOwned(db: Db) {
    forall d | d in db.artifacts && db.artifacts[d].locator.Some? :: HasPromoted(db, d)
  }

  /** The committed artifact row is not yet bound to a storage location. */
  predicate Unbound(db: Db, d: Digest) { SeenArtifact(db, d).locator.None? }

  lemma SamePathSameVersion(db: Db, r: VersionRow, s: VersionRow)
    requires RowHolds(db, r) && RowHolds(db, s)
    requires RelativePath(r.moduleId, r.version) == RelativePath(s.moduleId, s.version)
    ensures r.moduleId == s.moduleId && r.version == s.version
  {
    hide RelativePath, DependenciesOf, IsModuleId;
    RelativePathInjective(r.moduleId, r.version, s.moduleId, s.version);
  }

  lemma BoundUnshared(db: Db)
    requires RowsWell(db) && LocatorsBound(db)
    ensures DigestsUnshared(db)
  {
    hide RowHolds, RelativePath, UniqueRows, DenseOrder, DependenciesOwned;
    forall r, s | r in db.versions && s in db.versions && r.promoted && s.promoted && r.digest == s.digest
      ensures r.moduleId == s.moduleId && r.version == s.version
    {
      assert BoundHere(db, r) && BoundHere(db, s);
      SamePathSameVersion(db, r, s);
    }
  }

  // ----- One promotion -----

  lemma AfterRows(db: Db, req: Request)
    requires Ready(db, req) && FromStore(req)
    ensures var row := RowFor(db, req);
            && After(db, req).versions == db.versions + [row]
            && row.promoted && row.digest == req.stored.digest
            && row.moduleId == req.bound.intent.moduleId && row.version == req.bound.intent.version
            && FindRow(db.versions, row.moduleId, row.version).None?
            && After(db, req).artifacts ==
               db.artifacts[req.stored.digest :=
                 ArtifactRow(Some(req.stored.byteSize), Some(RelativePath(row.moduleId, row.version)))]
  {
    hide NextOrder, ValidSingle, ValidKey, DependencyRows, FindRow, RelativePath, PublicUrl, ProvenanceOf, EventFor;
    IntentNamesCandidate(req);
  }

  lemma UnboundStaysBound(db: Db, req: Request)
    requires Inv(db) && LocatorsBound(db) && LocatorsOwned(db) && Ready(db, req) && FromStore(req)
    requires Unbound(db, req.stored.digest)
    ensures LocatorsBound(After(db, req)) && LocatorsOwned(After(db, req))
  {
    hide Inv, Ready, FromStore, After, RowFor, RelativePath, FindRow;
    AfterRows(db, req);
    var b := After(db, req);
    forall r | r in b.versions && r.promoted ensures BoundHere(b, r) {
      if r in db.versions { assert BoundHere(db, r); }
    }
    forall d | d in b.artifacts && b.artifacts[d].locator.Some? ensures HasPromoted(b, d) {
      if d == req.stored.digest {
        assert RowFor(db, req) in b.versions;
      } else {
        assert HasPromoted(db, d);
        var r :| r in db.versions && r.promoted && r.digest == d;
        assert r in b.versions;
      }
    }
  }

  lemma BoundIsShared(db: Db, req: Request)
    requires LocatorsOwned(db) && Ready(db, req) && FromStore(req)
    requires !Unbound(db, req.stored.digest)
    ensures !DigestsUnshared(After(db, req))
  {
    hide Ready, FromStore, After, RowFor, RelativePath, FindRow;
    AfterRows(db, req);
    assert HasPromoted(db, req.stored.digest);
    var r :| r in db.versions && r.promoted && r.digest == req.stored.digest;
    assert RowFor(db, req) in After(db, req).versions && r in After(db, req).versions;
  }

  /** A committed promotion leaves digests unshared if and only if it found the committed row unbound. */
  lemma UnsharedExactlyWhen(db: Db, view: Db, req: Request)
    requires Inv(db) && LocatorsBound(db) && LocatorsOwned(db)
    requires ViewFor(db, view, req) && FromStore(req) && IsFresh(view, req)
    ensures DigestsUnshared(After(db, req)) <==> Unbound(db, req.stored.digest)
    ensures Unbound(db, req.stored.digest) ==> LocatorsBound(After(db, req)) && LocatorsOwned(After(db, req))
  {
    hide Ready, FromStore, After, RowsWell, ViewFor, IsFresh, Unbound, DigestsUnshared, LocatorsBound, LocatorsOwned,
      PointersAgree, PointersJoin, EventHolds, UniqueEvents, PromotedRecorded, Promotion;
    PromotionKeepsInv(db, view, req);
    if Unbound(db, req.stored.digest) {
      UnboundStaysBound(db, req);
      BoundUnshared(After(db, req));
    } else {
      BoundIsShared(db, req);
    }
  }

  /** A step that commits a promotion leaves digests unshared if and only if it found the committed row unbound. */
  lemma CommitUnsharedExactlyWhen(db: Db, act: Act, db': Db)
    requires Inv(db) && LocatorsBound(db) && LocatorsOwned(db) && Promotes(db, act, db')
    ensures DigestsUnshared(db') <==> Unbound(db, act.req.stored.digest)
  {
    hide Inv, LocatorsBound, LocatorsOwned, Step, ViewFor, FromStore, IsFresh, Promotion, After, Ready,
      DigestsUnshared, Unbound;
    PromotesFresh(db, act, db');
    UnsharedExactlyWhen(db, act.view, act.req);
  }

  /** The transaction read the committed artifact row, not an earlier one. */
  predicate ReadsCurrent(db: Db, view: Db, d: Digest) { SeenArtifact(view, d) == SeenArtifact(db, d) }

  /** A promotion that read the row as committed has itself checked that it is unbound. */
  lemma CurrentReadIsUnbound(db: Db, view: Db, req: Request)
    requires Inv(db) && LocatorsBound(db) && LocatorsOwned(db)
    requires ViewFor(db, view, req) && FromStore(req) && IsFresh(view, req) && ReadsCurrent(db, view, req.stored.digest)
    ensures Unbound(db, req.stored.digest)
  {
    hide Ready, After, ViewFor, Representable, FindRow, RelativePath, PublicUrl, NextOrder, RevisionOf, PointerOf,
      CheckIntent, CheckModule, CheckStored, Promotion, PointersAgree, PointersJoin, EventHolds, UniqueEvents,
      PromotedRecorded, RowHolds, UniqueRows, DenseOrder, DependenciesOwned;
    PromotionKeepsInv(db, view, req);
    FreshCommits(view, req, db);
    if !Unbound(db, req.stored.digest) {
      var r :| r in db.versions && r.promoted && r.digest == req.stored.digest;
      assert BoundHere(db, r);
      AfterRows(db, req);
      OwnPathOwnVersion(db, req, r);
    }
  }

  lemma OwnPathOwnVersion(db: Db, req: Request, r: VersionRow)
    requires Ready(db, req) && RowHolds(db, r)
    requires RelativePath(r.moduleId, r.version) == RelativePath(req.bound.intent.moduleId, req.bound.intent.version)
    ensures r.moduleId == req.bound.intent.moduleId && r.version == req.bound.intent.version
  {
    hide RelativePath, DependenciesOf, IsModuleId, ValidKey, ProvenanceOf, PublicUrl;
    IntentNamesCandidate(req);
    RelativePathInjective(r.moduleId, r.version, req.bound.intent.moduleId, req.bound.intent.version);
  }

  // ----- Imports bind nothing -----

  ghost predicate ArtifactsAdded(a: Db, b: Db) {
    forall d | d in b.artifacts ::
      (d in a.artifacts && b.artifacts[d] == a.artifacts[d]) || b.artifacts[d] == ArtifactRow(None, None)
  }

  lemma AddItemArtifacts(d: Db, it: ImportItem)
    requires AddItem(d, it).Ok?
    ensures ArtifactsAdded(d, AddItem(d, it).value.0)
  {
    hide AddItem, Stored, Inserted, ItemRow, FindRow;
    StoredIsNoOp(d, it);
    if AddItem(d, it).value.1 { AddItemInserts(d, it); }
  }

  lemma {:induction false} AddItemsArtifacts(d: Db, items: seq<ImportItem>)
    requires AddItems(d, items).Ok?
    ensures ArtifactsAdded(d, AddItems(d, items).value.0)
  {
    hide AddItem;
    if items != [] {
      AddItemsArtifacts(d, items[..|items| - 1]);
      AddItemArtifacts(AddItems(d, items[..|items| - 1]).value.0, items[|items| - 1]);
    }
  }

  lemma ImportBindsNothing(db: Db, ms: seq<ModuleDoc>)
    requires Import(db, ms).Ok?
    ensures ArtifactsAdded(db, Import(db, ms).value.0)
  {
    hide AddPublishers, AddModules, AddItems, AddPointings, ImportItems, Pointings, ProjectV1, ChannelTargets,
      Expected, ExpectedChannels, Sets;
    var a := AddPublishers(db, ms).value;
    var b := AddModules(a, ms).value;
    AddPublishersKeep(db, ms);
    AddModulesKeep(a, ms);
    AddItemsArtifacts(b, ImportItems(ms));
    AddPointingsKeep(AddItems(b, ImportItems(ms)).value.0, Pointings(IndexEntries(ms)));
  }

  lemma NothingPromoted(db: Db)
    requires PromotedRecorded(db) && db.events == [] && LocatorsOwned(db)
    ensures forall d | d in db.artifacts :: db.artifacts[d].locator.None?
    ensures LocatorsBound(db)
  {
    NoneRecorded(db);
  }

  lemma ImportKeepsBound(db: Db, ms: seq<ModuleDoc>)
    requires Inv(db) && db.events == [] && LocatorsOwned(db) && Import(db, ms).Ok?
    ensures LocatorsBound(Import(db, ms).value.0) && LocatorsOwned(Import(db, ms).value.0)
  {
    hide Import, Inv, RowsWell, PointersJoin, UniqueEvents, EventHolds;
    var d := Import(db, ms).value.0;
    InvRowsWell(db);
    NothingPromoted(db);
    ImportBindsNothing(db, ms);
    ImportKeepsInv(db, ms);
    InvRowsWell(d);
    RegistryAudit.ImportKeepsEvents(db, ms);
    NoneRecorded(d);
  }

  // ----- Whole runs -----

  /** Every promotion of the first n steps found its committed artifact row unbound. */
  ghost predicate AllUnbound(states: seq<Db>, acts: seq<Act>, n: nat) {
    forall i: nat | i < n && PromotedAt(states, acts, i) :: Unbound(states[i], acts[i].req.stored.digest)
  }

  lemma {:induction false} RunBound(states: seq<Db>, acts: seq<Act>, n: nat)
    requires Run(states, acts) && n < |states| && AllUnbound(states, acts, n)
    ensures LocatorsBound(states[n]) && LocatorsOwned(states[n])
  {
    hide Inv, Promotion, Import, Merge, ImportViewFor, ViewFor, FromStore, After, Ready, IsFresh, LocatorsBound,
      LocatorsOwned, Unbound, DigestsUnshared;
    if n == 0 {
      EmptyBound();
    } else {
      var db, act := states[n - 1], acts[n - 1];
      RunBound(states, acts, n - 1);
      RunKeepsInv(states, acts, n - 1);
      assert Step(db, act, states[n]);
      match act
      case ImportAct(ms, _) =>
        ImportCommits(db, act, states[n]);
        if states[n] != db { ImportKeepsBound(db, ms); }
      case PromoteAct(req, view) =>
        if Promotion(view, req).Ok? {
          if IsFresh(view, req) {
            PromotionKeepsInv(db, view, req);
            AfterAddsEvent(db, req);
            assert PromotedAt(states, acts, n - 1);
            UnsharedExactlyWhen(db, view, req);
          } else {
            RecordedWritesNothing(db, view, req);
            ApplyAllNone(db);
          }
        }
    }
  }

  lemma EmptyBound()
    ensures LocatorsBound(EMPTY) && LocatorsOwned(EMPTY)
  {}

  lemma SharingPersists(a: Db, b: Db)
    requires RowsWell(a) && Advances(a, b) && !DigestsUnshared(a)
    ensures !DigestsUnshared(b)
  {
    hide FindRow, ReleaseStructure, Project, DenseOrder, DependenciesOwned, RowHolds;
    var r, s :| r in a.versions && s in a.versions && r.promoted && s.promoted && r.digest == s.digest
                && !(r.moduleId == s.moduleId && r.version == s.version);
    FindRowUnique(a.versions, r);
    FindRowUnique(a.versions, s);
    FindRowKey(b.versions, r.moduleId, r.version);
    FindRowKey(b.versions, s.moduleId, s.version);
  }

  /**
   At any moment of any run no two promoted versions share a digest, if and only if each
   promotion so far found the committed artifact row of its digest unbound.
   */
  lemma RunUnsharedExactlyWhen(states: seq<Db>, acts: seq<Act>, n: nat)
    requires Run(states, acts) && n < |states|
    ensures DigestsUnshared(states[n]) <==> AllUnbound(states, acts, n)
  {
    hide Inv, RowsWell, Promotion, ViewFor, FromStore, After, Ready, IsFresh, LocatorsBound, LocatorsOwned, Unbound,
      DigestsUnshared, Advances, Step;
    RunKeepsInv(states, acts, n);
    InvRowsWell(states[n]);
    if AllUnbound(states, acts, n) {
      RunBound(states, acts, n);
      BoundUnshared(states[n]);
    } else {
      var i := FirstBound(states, acts, n);
      RunBound(states, acts, i);
      RunKeepsInv(states, acts, i);
      RunKeepsInv(states, acts, i + 1);
      InvRowsWell(states[i + 1]);
      assert Step(states[i], acts[i], states[i + 1]);
      PromotesFresh(states[i], acts[i], states[i + 1]);
      UnsharedExactlyWhen(states[i], acts[i].view, acts[i].req);
      RunAdvances(states, acts, i + 1, n);
      SharingPersists(states[i + 1], states[n]);
    }
  }

  lemma {:induction false} FirstBound(states: seq<Db>, acts: seq<Act>, n: nat) returns (i: nat)
    requires !AllUnbound(states, acts, n) && n <= |acts| && |states| == |acts| + 1
    ensures i < n && PromotedAt(states, acts, i) && !Unbound(states[i], acts[i].req.stored.digest)
            && AllUnbound(states, acts, i)
  {
    hide PromotedAt, Unbound;
    if AllUnbound(states, acts, n - 1) { i := n - 1; } else { i := FirstBound(states, acts, n - 1); }
  }

  /** With current reads no digest is ever shared. */
  lemma {:induction false} CurrentReadsNeverShare(states: seq<Db>, acts: seq<Act>, n: nat)
    requires Run(states, acts) && n < |states|
    requires forall i: nat | i < n && PromotedAt(states, acts, i) ::
             ReadsCurrent(states[i], acts[i].view, acts[i].req.stored.digest)
    ensures AllUnbound(states, acts, n) && DigestsUnshared(states[n])
  {
    hide Inv, Step, IsFresh, Unbound, DigestsUnshared, LocatorsBound, LocatorsOwned, ReadsCurrent, ViewFor, FromStore,
      After;
    if n > 0 {
      CurrentReadsNeverShare(states, acts, n - 1);
      if PromotedAt(states, acts, n - 1) {
        RunBound(states, acts, n - 1);
        RunKeepsInv(states, acts, n - 1);
        assert Step(states[n - 1], acts[n - 1], states[n]);
        PromotesFresh(states[n - 1], acts[n - 1], states[n]);
        CurrentReadIsUnbound(states[n - 1], acts[n - 1].view, acts[n - 1].req);
      }
    }
    RunUnsharedExactlyWhen(states, acts, n);
  }

  // ----- What the locks rule out in every run -----

  /** Every stored location is the path of a promoted version with that digest. */
  ghost predicate LocatorsGiven(db: Db) {
    forall d | d in db.artifacts && db.artifacts[d].locator.Some? ::
      GivenByPromotion(db, d, db.artifacts[d].locator.value)
  }

  /** Two promoted versions of one digest belong to different modules, and an import brought the digest first. */
  ghost predicate SharingLimited(db: Db) {
    forall r, s | r in db.versions && s in db.versions && r.promoted && s.promoted && r.digest == s.digest
                  && !(r.moduleId == s.moduleId && r.version == s.version) ::
      r.moduleId != s.moduleId && Imported(db, r.digest)
  }

  lemma AfterGiven(db: Db, req: Request)
    requires LocatorsGiven(db) && Ready(db, req) && FromStore(req)
    ensures LocatorsGiven(After(db, req))
  {
    hide Ready, FromStore, After, RowFor, RelativePath, FindRow;
    AfterRows(db, req);
    var b := After(db, req);
    forall d | d in b.artifacts && b.artifacts[d].locator.Some?
      ensures GivenByPromotion(b, d, b.artifacts[d].locator.value)
    {
      if d == req.stored.digest {
        assert RowFor(db, req) in b.versions;
      } else {
        assert GivenByPromotion(db, d, db.artifacts[d].locator.value);
        var r :| r in db.versions && Carries(r, d)
          && db.artifacts[d].locator.value == RelativePath(r.moduleId, r.version);
        assert r in b.versions;
      }
    }
  }

  /** A promotion that read a location never commits: the location is another version's. */
  lemma LocationSeenRefuses(db: Db, view: Db, req: Request)
    requires Inv(db) && LocatorsGiven(db) && ViewFor(db, view, req) && FromStore(req) && IsFresh(view, req)
    ensures SeenArtifact(view, req.stored.digest).locator.None?
  {
    hide Ready, After, SameSlice, Representable, FindRow, RelativePath, PublicUrl, NextOrder, RevisionOf, PointerOf,
      CheckIntent, CheckModule, CheckStored, Promotion, PointersAgree, PointersJoin, EventHolds, UniqueEvents,
      PromotedRecorded, RowHolds, UniqueRows, DenseOrder, DependenciesOwned, PromotedLocated, ImportedPublished;
    PromotionKeepsInv(db, view, req);
    FreshCommits(view, req, db);
    var d := req.stored.digest;
    if SeenArtifact(view, d).locator.Some? {
      var l := SeenArtifact(view, d).locator.value;
      assert GivenByPromotion(db, d, l);
      var r :| r in db.versions && Carries(r, d) && l == RelativePath(r.moduleId, r.version);
      AfterRows(db, req);
      OwnPathOwnVersion(db, req, r);
    }
  }

  lemma CommitLimitsSharing(db: Db, view: Db, req: Request)
    requires Inv(db) && LocatorsGiven(db) && SharingLimited(db)
    requires ViewFor(db, view, req) && FromStore(req) && IsFresh(view, req) && Ready(db, req)
    ensures SharingLimited(After(db, req))
  {
    hide Inv, Ready, After, SameSlice, RowFor, RelativePath, FindRow, IsFresh, FromStore;
    LocationSeenRefuses(db, view, req);
    AfterRows(db, req);
    var b, d := After(db, req), req.stored.digest;
    forall r | r in db.versions && Carries(r, d)
      ensures r.moduleId != req.bound.intent.moduleId && Imported(db, d)
    {
      InvCarries(db, r);
    }
    assert forall x | Imported(db, x) :: Imported(b, x) by {
      forall x | Imported(db, x) ensures Imported(b, x) {
        var r :| r in db.versions && !r.promoted && r.digest == x;
        assert r in b.versions;
      }
    }
    assert forall r | r in b.versions :: r in db.versions || r == RowFor(db, req);
  }

  lemma InvCarries(db: Db, r: VersionRow)
    requires Inv(db) && r in db.versions && r.promoted
    ensures r.digest in db.artifacts && db.artifacts[r.digest].locator.Some?
  {}

  lemma ImportKeepsLimits(db: Db, ms: seq<ModuleDoc>)
    requires Inv(db) && db.events == [] && LocatorsGiven(db) && Import(db, ms).Ok?
    ensures LocatorsGiven(Import(db, ms).value.0) && SharingLimited(Import(db, ms).value.0)
  {
    hide Import, Inv, RowsWell, PointersJoin, UniqueEvents, EventHolds;
    var d := Import(db, ms).value.0;
    InvRowsWell(db);
    NoneRecorded(db);
    ImportBindsNothing(db, ms);
    ImportKeepsInv(db, ms);
    InvRowsWell(d);
    RegistryAudit.ImportKeepsEvents(db, ms);
    NoneRecorded(d);
  }

  /**
   In every run, whatever earlier artifact rows were read: two promoted versions that share a
   digest belong to different modules, and the digest was imported before.
   */
  lemma {:induction false} SharingIsLimited(states: seq<Db>, acts: seq<Act>, n: nat)
    requires Run(states, acts) && n < |states|
    ensures SharingLimited(states[n]) && LocatorsGiven(states[n])
  {
    hide Inv, Promotion, Import, Merge, ImportViewFor, ViewFor, FromStore, After, Ready, IsFresh, LocatorsGiven,
      SharingLimited;
    if n == 0 {
      EmptyLimited();
    } else {
      var db, act := states[n - 1], acts[n - 1];
      SharingIsLimited(states, acts, n - 1);
      RunKeepsInv(states, acts, n - 1);
      assert Step(db, act, states[n]);
      match act
      case ImportAct(ms, _) =>
        ImportCommits(db, act, states[n]);
        if states[n] != db { ImportKeepsLimits(db, ms); }
      case PromoteAct(req, view) =>
        if Promotion(view, req).Ok? {
          if IsFresh(view, req) {
            PromotionKeepsInv(db, view, req);
            AfterGiven(db, req);
            CommitLimitsSharing(db, view, req);
          } else {
            RecordedWritesNothing(db, view, req);
            ApplyAllNone(db);
          }
        }
    }
  }

  lemma EmptyLimited()
    ensures LocatorsGiven(EMPTY) && SharingLimited(EMPTY)
  {}
}

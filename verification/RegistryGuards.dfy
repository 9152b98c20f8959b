/**
 The guards of a promotion in the fields of the request and of the tables: which request is
 refused for which reason, and what a request has to be in order to get as far as its insertion.
 */
module RegistryGuards {
  import opened ArtifactPaths
  import opened RegistryDocuments
  import opened RegistryPromotion
  import opened RegistryRepository
  import opened RegistryTables
  import opened SemVer
  import opened Wrappers

  /** A letter or digit, then at most 199 letters, digits, colons, dots, underscores and hyphens. */
  ghost predicate KeyForm(k: string) {
    && 1 <= |k| <= 200
    && ('A' <= k[0] <= 'Z' || 'a' <= k[0] <= 'z' || '0' <= k[0] <= '9')
    && forall c | c in k ::
         'A' <= c <= 'Z' || 'a' <= c <= 'z' || '0' <= c <= '9' || c == ':' || c == '.' || c == '_' || c == '-'
  }

  /** The intent names the candidate that was reviewed. */
  ghost predicate NamesCandidate(b: BoundIntent) {
    && b.candidate.moduleId == b.intent.moduleId && b.candidate.version == b.intent.version
    && b.candidate.plannedChannel == b.intent.channel && b.candidate.bundleSha256 == b.intent.bundleSha256
    && b.intent.candidateSha256 == CandidateSha256(b.candidate)
  }

  /** The store reports the approved bytes under the candidate's canonical URL. */
  ghost predicate StoredAsApproved(req: Request) {
    var c := req.bound.candidate;
    req.stored.digest == req.bound.intent.bundleSha256 && req.stored.publicUrl == MirrorUrl(c.moduleId, c.version)
  }

  /** The module is registered, with this repository and classification. */
  ghost predicate Registered(db: Db, c: Candidate) {
    && c.moduleId in db.modules
    && db.modules[c.moduleId].sourceRepository == c.sourceRepository
    && db.modules[c.moduleId].classification == c.classification
  }

  /** A version of the grammar, no pre-release on the stable channel, format 1, no dependency on itself. */
  ghost predicate ReleaseRules(c: Candidate) {
    && IsModuleId(c.moduleId) && c.version.WellFormed()
    && (c.plannedChannel == Stable ==> c.version.pre.None?)
    && c.bundleFormat == 1 && c.moduleId !in c.requiresModules
  }

  ghost predicate KeyFree(db: Db, i: PromotionIntent) { forall e | e in db.events :: e.key != i.key }

  ghost predicate VersionFree(db: Db, i: PromotionIntent) {
    forall e | e in db.events :: !(e.moduleId == i.moduleId && e.version == i.version)
  }

  /** The channel is at the approved revision; a channel without a pointer is at revision 0. */
  ghost predicate AtRevision(db: Db, i: PromotionIntent) {
    if (i.moduleId, i.channel) in db.channels
    then db.channels[(i.moduleId, i.channel)].revision == i.expectedRevision
    else i.expectedRevision == 0
  }

  /** Nothing that is known about the stored artifact says otherwise. */
  ghost predicate ArtifactOpen(db: Db, req: Request) {
    req.stored.digest in db.artifacts ==>
      var row := db.artifacts[req.stored.digest];
      && (row.byteSize.Some? ==> row.byteSize.value == req.stored.byteSize)
      && (row.locator.Some? ==> row.locator.value == req.stored.locator)
  }

  ghost predicate RowFree(db: Db, i: PromotionIntent) {
    forall r | r in db.versions :: !(r.moduleId == i.moduleId && r.version == i.version)
  }

  // ----- The guards are these -----

  lemma KeyExactly(k: string)
    ensures ValidKey(k) <==> KeyForm(k)
  {
    if KeyForm(k) {
      forall i | 0 <= i < |k| ensures IsKeyChar(k[i]) { assert k[i] in k; }
    }
  }

  lemma IntentExactly(b: BoundIntent)
    ensures var r := CheckIntent(b);
            && (r == Some(InvalidKey) <==> !KeyForm(b.intent.key) || b.intent.expectedRevision < 0)
            && (r == Some(CandidateMismatch) <==>
                  KeyForm(b.intent.key) && b.intent.expectedRevision >= 0 && !NamesCandidate(b))
            && (r.None? <==> KeyForm(b.intent.key) && b.intent.expectedRevision >= 0 && NamesCandidate(b))
  {
    hide ValidKey, KeyForm;
    KeyExactly(b.intent.key);
  }

  lemma StoredExactly(req: Request)
    ensures CheckStored(req) == if StoredAsApproved(req) then None else Some(StoredDiffers)
  {
    hide PublicUrl, MirrorUrl;
    MirrorUrlIsPublic(req.bound.candidate.moduleId, req.bound.candidate.version);
  }

  lemma ModuleExactly(db: Db, c: Candidate)
    ensures var r := CheckModule(db, c);
            && (r == Some(ModuleMismatch) <==> !Registered(db, c))
            && (r == Some(InvalidDocument) <==> Registered(db, c) && !ReleaseRules(c))
            && (r.None? <==> Registered(db, c) && ReleaseRules(c))
  {
    hide IsModuleId, PublicUrl;
  }

  lemma RevisionExactly(db: Db, i: PromotionIntent)
    ensures RevisionOf(db, i.moduleId, i.channel) == i.expectedRevision <==> AtRevision(db, i)
  {}

  lemma StorageExactly(db: Db, req: Request)
    ensures StorageFits(SeenArtifact(db, req.stored.digest), req.stored) <==> ArtifactOpen(db, req)
  {}

  /** The reason of every refusal, in the order of the checks. */
  lemma PromotionRefusals(view: Db, req: Request)
    ensures var i, c, r := req.bound.intent, req.bound.candidate, Promotion(view, req);
            if !KeyForm(i.key) || i.expectedRevision < 0 then r == Err(InvalidKey)
            else if !NamesCandidate(req.bound) then r == Err(CandidateMismatch)
            else if !StoredAsApproved(req) then r == Err(StoredDiffers)
            else if !Registered(view, c) then r == Err(ModuleMismatch)
            else if !ReleaseRules(c) then r == Err(InvalidDocument)
            else if !KeyFree(view, i) then true
            else if !VersionFree(view, i) then r == Err(VersionOwned)
            else if !AtRevision(view, i) then r == Err(StaleRevision)
            else if !ArtifactOpen(view, req) then r == Err(StorageConflict)
            else if !RowFree(view, i) then r.Err? && r.error in {ImmutableConflict, ProvenanceConflict, VersionExists}
            else if !(c.requiresModules.Keys <= view.modules.Keys) then r == Err(MissingDependency)
            else r.Ok? || r == Err(NotRepresentable)
  {
    hide KeyForm, ReleaseRules, Registered, StoredAsApproved, NamesCandidate, AtRevision, ArtifactOpen, CheckIntent,
      CheckStored, CheckModule, Fresh, Retry, StorageFits, RevisionOf, SeenArtifact;
    IntentExactly(req.bound);
    StoredExactly(req);
    ModuleExactly(view, req.bound.candidate);
    if CheckIntent(req.bound).None? && CheckStored(req).None? && CheckModule(view, req.bound.candidate).None?
       && KeyFree(view, req.bound.intent) {
      FreshRefusals(view, req);
    }
  }

  /** A key that is recorded for another intent is refused. */
  lemma KeyReuseExactly(view: Db, req: Request, e: Event)
    requires KeyForm(req.bound.intent.key) && req.bound.intent.expectedRevision >= 0 && NamesCandidate(req.bound)
    requires StoredAsApproved(req) && Registered(view, req.bound.candidate) && ReleaseRules(req.bound.candidate)
    requires e in view.events && e.key == req.bound.intent.key
    requires forall f | f in view.events && f.key == e.key :: f == e
    ensures e.intent != req.bound ==> Promotion(view, req) == Err(KeyReused)
  {
    hide KeyForm, ReleaseRules, Registered, StoredAsApproved, NamesCandidate, CheckIntent, CheckStored, CheckModule,
      Fresh;
    IntentExactly(req.bound);
    StoredExactly(req);
    ModuleExactly(view, req.bound.candidate);
  }

  lemma FreshRefusals(view: Db, req: Request)
    requires CheckIntent(req.bound).None? && CheckModule(view, req.bound.candidate).None?
    requires CheckStored(req).None?
    ensures var i, c, r := req.bound.intent, req.bound.candidate, Fresh(view, req);
            if !VersionFree(view, i) then r == Err(VersionOwned)
            else if !AtRevision(view, i) then r == Err(StaleRevision)
            else if !ArtifactOpen(view, req) then r == Err(StorageConflict)
            else if !RowFree(view, i) then r.Err? && r.error in {ImmutableConflict, ProvenanceConflict, VersionExists}
            else if !(c.requiresModules.Keys <= view.modules.Keys) then r == Err(MissingDependency)
            else r.Ok? || r == Err(NotRepresentable)
  {
    hide AtRevision, ArtifactOpen, StorageFits, RevisionOf, SeenArtifact, Finish, ApplyAll;
    RevisionExactly(view, req.bound.intent);
    StorageExactly(view, req);
    BoundKeeps(view, req.stored);
    FinishRefusals(ApplyAll(view, BoundLog(view, req.stored)), BoundLog(view, req.stored), req,
      PointerOf(view, req.bound.intent.moduleId, req.bound.intent.channel),
      RevisionOf(view, req.bound.intent.moduleId, req.bound.intent.channel) + 1);
  }

  /** Binding the artifact leaves versions and modules alone. */
  lemma BoundKeeps(view: Db, stored: StoredArtifact)
    ensures var now := ApplyAll(view, BoundLog(view, stored));
            now.versions == view.versions && now.modules == view.modules
  {
    var ensured := EnsureArtifactLog(view, stored.digest);
    ApplyAllAppend(view, ensured, BindStorage(stored));
    ApplyAllNone(view);
    if ensured != [] { ApplyAllAppend(view, [], ensured[0]); assert [] + [ensured[0]] == ensured; }
  }

  lemma FinishRefusals(now: Db, log: seq<Write>, req: Request, previous: Option<Version>, revision: nat)
    requires CheckIntent(req.bound).None? && CheckModule(now, req.bound.candidate).None?
    ensures var i, c, r := req.bound.intent, req.bound.candidate, Finish(now, log, req, previous, revision);
            if !RowFree(now, i) then r.Err? && r.error in {ImmutableConflict, ProvenanceConflict, VersionExists}
            else if !(c.requiresModules.Keys <= now.modules.Keys) then r == Err(MissingDependency)
            else r.Ok? || r == Err(NotRepresentable)
  {
    hide Representable, ApplyAll, Apply, ReleaseStructure, NextOrder, ValidSingle, ProvenanceOf, InsertWrite,
      EnsureArtifactLog, ValidKey;
  }
}

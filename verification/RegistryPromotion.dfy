/**
 One promotion transaction. Its decision is a function of what the transaction sees and of
 the reviewed request; the database commits the decided writes as one step or none.
 */
module RegistryPromotion {
  import opened ArtifactPaths
  import opened Digests
  import opened RegistryDocuments
  import opened RegistryRepository
  import opened RegistryTables
  import opened SemVer
  import opened StableSort
  import opened Wrappers

  /** A reviewed intent and what the store reported for its bytes. */
  datatype Request = Request(bound: BoundIntent, stored: StoredArtifact)

  /** candidate_release */
  function ReleaseOf(c: Candidate): Release {
    Release(c.version, c.plannedChannel, PublicUrl(c.moduleId, c.version), c.bundleSha256, c.bundleFormat,
            c.sourceCommit, c.sourceTag, c.host, c.sdk, c.requiresModules)
  }

  function ProvenanceOf(c: Candidate): Provenance {
    Provenance(c.sourceRepository, c.sourceTag, c.sourceCommit, Some(c.builderVersion), Some(c.builderCommit),
               if c.environment.Some? then c.hostCommit else None, Some(true), Some("passed"), c.environment)
  }

  predicate IsKeyChar(c: char) { IsIdentChar(c) || c in {':', '.', '_'} }

  /** [A-Za-z0-9][A-Za-z0-9:._-]{0,199} */
  predicate ValidKey(k: string) {
    1 <= |k| <= 200 && IsIdentChar(k[0]) && k[0] != '-' && forall i | 0 <= i < |k| :: IsKeyChar(k[i])
  }

  /** The checks made before any byte is stored or any transaction opened. */
  function CheckIntent(b: BoundIntent): Option<Reason> {
    if !ValidKey(b.intent.key) || b.intent.expectedRevision < 0 then Some(InvalidKey)
    else if b.candidate.moduleId != b.intent.moduleId || b.candidate.version != b.intent.version
         || CandidateSha256(b.candidate) != b.intent.candidateSha256
         || b.candidate.plannedChannel != b.intent.channel
         || b.candidate.bundleSha256 != b.intent.bundleSha256 then Some(CandidateMismatch)
    else None
  }

  function CheckStored(req: Request): Option<Reason> {
    if req.stored.digest != req.bound.intent.bundleSha256
    || req.stored.publicUrl != ReleaseOf(req.bound.candidate).url then Some(StoredDiffers)
    else None
  }

  function CheckModule(view: Db, c: Candidate): Option<Reason> {
    if c.moduleId !in view.modules || view.modules[c.moduleId].sourceRepository != c.sourceRepository
    || view.modules[c.moduleId].classification != c.classification then Some(ModuleMismatch)
    else if !ValidSingle(c.moduleId, ReleaseOf(c)) then Some(InvalidDocument)
    else None
  }

  /** The artifact row that the transaction works with: the one it read, or the one it inserted. */
  function SeenArtifact(view: Db, d: Digest): ArtifactRow {
    if d in view.artifacts then view.artifacts[d] else ArtifactRow(None, None)
  }

  predicate Fits<T(==)>(known: Option<T>, actual: T) { known.None? || known == Some(actual) }

  function StorageFits(row: ArtifactRow, stored: StoredArtifact): bool {
    Fits(row.byteSize, stored.byteSize) && Fits(row.locator, stored.locator)
  }

  function RevisionOf(db: Db, id: string, c: Channel): nat {
    if (id, c) in db.channels then db.channels[(id, c)].revision else 0
  }

  function PointerOf(db: Db, id: string, c: Channel): Option<Version> {
    if (id, c) in db.channels then Some(db.channels[(id, c)].version) else None
  }

  /** The artifact row, completed; what was known of it is kept, as the check above saw to. */
  function BindStorage(stored: StoredArtifact): Write {
    ArtifactWrite(stored.digest, ArtifactRow(Some(stored.byteSize), Some(stored.locator)))
  }

  function EventFor(req: Request, previous: Option<Version>, revision: nat): Event {
    var i := req.bound.intent;
    Event(i.key, i.moduleId, i.version, i.channel, previous, req.bound,
          PromotionResult(i.key, i.moduleId, i.version, i.channel, previous, i.version, revision,
                          req.stored.digest, req.stored.publicUrl, req.stored.locator, req.stored.byteSize, Published))
  }

  function BoundLog(view: Db, stored: StoredArtifact): seq<Write> {
    EnsureArtifactLog(view, stored.digest) + [BindStorage(stored)]
  }

  /** A promotion whose key has no event yet. */
  ghost function Fresh(view: Db, req: Request): Result<(PromotionResult, seq<Write>), Reason> {
    var i := req.bound.intent;
    if EventOfVersion(view.events, i.moduleId, i.version).Some? then Err(VersionOwned)
    else if RevisionOf(view, i.moduleId, i.channel) != i.expectedRevision then Err(StaleRevision)
    else if !StorageFits(SeenArtifact(view, req.stored.digest), req.stored) then Err(StorageConflict)
    else
      Finish(ApplyAll(view, BoundLog(view, req.stored)), BoundLog(view, req.stored), req,
             PointerOf(view, i.moduleId, i.channel), RevisionOf(view, i.moduleId, i.channel) + 1)
  }

  /** From the bound artifact on: insert, move the pointer, check the whole future state, record. */
  ghost function Finish(now: Db, log: seq<Write>, req: Request, previous: Option<Version>, revision: nat)
    : Result<(PromotionResult, seq<Write>), Reason>
  {
    var i, c := req.bound.intent, req.bound.candidate;
    match InsertVersion(now, i.moduleId, ReleaseOf(c), None, Some(ProvenanceOf(c)))
    case Err(e) => Err(e)
    case Ok((more, inserted)) =>
      if !inserted then Err(VersionExists)
      else
        var move := ChannelWrite(i.moduleId, i.channel, Pointer(i.version, revision));
        var e := EventFor(req, previous, revision);
        if !Representable(Apply(ApplyAll(now, more), move)) then Err(NotRepresentable)
        else Ok((e.result, log + more + [move] + [EventWrite(e)]))
  }

  /** A promotion whose key is already recorded: the same intent is answered again, anything else is refused. */
  ghost function Retry(view: Db, req: Request, e: Event): Result<(PromotionResult, seq<Write>), Reason> {
    if e.intent != req.bound then Err(KeyReused)
    else
      match InsertVersion(view, req.bound.intent.moduleId, ReleaseOf(req.bound.candidate), None,
                          Some(ProvenanceOf(req.bound.candidate)))
      case Err(r) => Err(r)
      case Ok((log, _)) => Ok((e.result.(status := AlreadyPublished), log))
  }

  /** The decision of promote. */
  ghost function Promotion(view: Db, req: Request): Result<(PromotionResult, seq<Write>), Reason> {
    if CheckIntent(req.bound).Some? then Err(CheckIntent(req.bound).value)
    else if CheckStored(req).Some? then Err(CheckStored(req).value)
    else if CheckModule(view, req.bound.candidate).Some? then Err(CheckModule(view, req.bound.candidate).value)
    else
      match FindEvent(view.events, req.bound.intent.key)
      case Some(e) => Retry(view, req, e)
      case None => Fresh(view, req)
  }

  // ----- What the locks guarantee about the view -----

  function Concerns(id: string, key: string): Event -> bool {
    (e: Event) => e.moduleId == id || e.key == key
  }

  /** A promoted version carries the digest. */
  predicate Carries(r: VersionRow, d: Digest) { r.promoted && r.digest == d }

  /** The location that some promoted version gave the artifact. */
  ghost predicate GivenByPromotion(db: Db, d: Digest, locator: string) {
    exists r :: r in db.versions && Carries(r, d) && locator == RelativePath(r.moduleId, r.version)
  }

  /** An import inserted the artifact, and so without a location. */
  ghost predicate Imported(db: Db, d: Digest) { exists r :: r in db.versions && !r.promoted && r.digest == d }

  /**
   What an unlocked read of the artifact row may have found: the committed row, the row as it
   was imported, or a location of an earlier promotion that a later one has replaced.
   */
  ghost predicate ArtifactRead(db: Db, d: Digest, seen: ArtifactRow)
    requires d in db.artifacts
  {
    || seen == db.artifacts[d]
    || (seen == ArtifactRow(None, None) && Imported(db, d))
    || (seen.byteSize.Some? && seen.locator.Some? && GivenByPromotion(db, d, seen.locator.value))
  }

  /**
   The module row lock makes the rows of the own module exact, the advisory lock makes the
   events of the own key exact. The artifact row of the bundle is read without a lock of its
   own, but after the module was locked: every binding by a promotion of the own module is in
   it. Nothing is said about the rows of any other module.
   */
  ghost predicate ViewFor(db: Db, view: Db, req: Request) {
    var id := req.bound.intent.moduleId;
    var d := req.stored.digest;
    && SameSlice(db, view, id)
    && Filter(db.events, Concerns(id, req.bound.intent.key)) == Filter(view.events, Concerns(id, req.bound.intent.key))
    && (d in view.artifacts <==> d in db.artifacts)
    && (d in db.artifacts ==> ArtifactRead(db, d, view.artifacts[d]))
    && (forall r | r in db.versions && r.moduleId == id && Carries(r, d) ::
          d in view.artifacts && view.artifacts[d].locator.Some?)
  }

  /** The artifact of every promoted version is stored somewhere. */
  ghost predicate PromotedLocated(db: Db) {
    forall r | r in db.versions && r.promoted :: r.digest in db.artifacts && db.artifacts[r.digest].locator.Some?
  }

  lemma FullViewIsView(db: Db, req: Request)
    requires PromotedLocated(db)
    ensures ViewFor(db, db, req)
  {}

  lemma {:induction false} FindEventConcerned(events: seq<Event>, id: string, key: string, v: Version)
    ensures FindEvent(events, key) == FindEvent(Filter(events, Concerns(id, key)), key)
    ensures EventOfVersion(events, id, v) == EventOfVersion(Filter(events, Concerns(id, key)), id, v)
  {
    if events != [] {
      FindEventConcerned(events[1..], id, key, v);
      var f := Filter(events, Concerns(id, key));
      if Concerns(id, key)(events[0]) { assert f[1..] == Filter(events[1..], Concerns(id, key)); }
    }
  }

  // ----- The service -----

  /** validate_v1_representability over the two read-back views. */
  method ValidateRepresentability(projection: map<string, ModuleDoc>, targets: map<string, map<Channel, Target>>)
    returns (ok: bool)
    ensures ok <==> (forall id | id in projection :: ValidModule(projection[id])) && IndexMap(projection) == targets
  {
    hide ValidModule, ChannelsOf, Sort;
    var rest := projection.Keys;
    var expected: map<string, map<Channel, Target>> := map[];
    while rest != {}
      invariant rest <= projection.Keys
      invariant forall id | id in projection && id !in rest :: ValidModule(projection[id])
      invariant expected == map id | id in projection && id !in rest :: ChannelsOf(projection[id].versions)
    {
      var id :| id in rest;
      var valid := ValidateModule(projection[id]);
      if !valid { return false; }
      var entries := BuildIndex([projection[id]]);
      SingleSorted(projection[id]);
      expected := expected[id := entries[0].channels];
      rest := rest - {id};
    }
    assert expected == IndexMap(projection);
    return expected == targets;
  }

  lemma SingleSorted(m: ModuleDoc)
    ensures Sort([m], ModuleIdLess) == [m]
  {
    SortAscending([m], ModuleIdLess);
  }

  class RegistryDatabase {
    var committed: Db

    constructor ()
      ensures committed == EMPTY
    {
      committed := EMPTY;
    }

    /** The transaction of promote, over what it sees; any refusal leaves the tables alone. */
    method Promote(req: Request, view: Db) returns (outcome: Result<PromotionResult, Reason>)
      modifies this
      ensures match Promotion(view, req)
              case Err(e) => outcome == Err(e) && committed == old(committed)
              case Ok((result, log)) => outcome == Ok(result) && committed == ApplyAll(old(committed), log)
    {
      var early := CheckIntent(req.bound);
      if early.Some? { return Err(early.value); }
      var stored := CheckStored(req);
      if stored.Some? { return Err(stored.value); }
      var wrong := CheckModule(view, req.bound.candidate);
      if wrong.Some? { return Err(wrong.value); }
      var session := new Session(view);
      var recorded := FindEvent(view.events, req.bound.intent.key);
      if recorded.Some? {
        outcome := Repeat(session, req, recorded.value);
      } else {
        outcome := Advance(session, req);
      }
      if outcome.Ok? { committed := ApplyAll(committed, session.log); }
    }
  }

  /** A session ended as the specification decides: refused, or with this result and these flushes. */
  ghost predicate Matches(decided: Result<(PromotionResult, seq<Write>), Reason>,
      outcome: Result<PromotionResult, Reason>, log: seq<Write>)
  {
    match decided
    case Err(e) => outcome == Err(e)
    case Ok((result, all)) => outcome == Ok(result) && log == all
  }

  lemma FreshReachesFinish(view: Db, req: Request)
    ensures var i := req.bound.intent;
            && EventOfVersion(view.events, i.moduleId, i.version).None?
            && RevisionOf(view, i.moduleId, i.channel) == i.expectedRevision
            && StorageFits(SeenArtifact(view, req.stored.digest), req.stored)
            ==> Fresh(view, req) ==
                Finish(ApplyAll(view, BoundLog(view, req.stored)), BoundLog(view, req.stored), req,
                       PointerOf(view, i.moduleId, i.channel), RevisionOf(view, i.moduleId, i.channel) + 1)
  {
    hide Finish;
  }

  /** The whole future state, uncommitted rows included, against the v1 selection rule. */
  method FutureRepresentable(session: Session) returns (ok: bool)
    ensures ok <==> Representable(session.tables)
  {
    var projection := session.ReadProjection();
    var targets := session.ReadChannelTargets();
    ok := ValidateRepresentability(projection, targets);
  }

  method Repeat(session: Session, req: Request, e: Event) returns (outcome: Result<PromotionResult, Reason>)
    requires session.log == []
    modifies session
    ensures Matches(Retry(old(session.tables), req, e), outcome, session.log)
  {
    if e.intent != req.bound { return Err(KeyReused); }
    var c := req.bound.candidate;
    var repeated :=
      session.InsertPublishedVersion(req.bound.intent.moduleId, ReleaseOf(c), None, Some(ProvenanceOf(c)));
    if repeated.Err? { return Err(repeated.error); }
    return Ok(e.result.(status := AlreadyPublished));
  }

  /** Completes unknown storage columns, never replaces known ones. */
  method BindArtifact(session: Session, stored: StoredArtifact) returns (fits: bool)
    requires session.log == []
    modifies session
    ensures fits <==> StorageFits(SeenArtifact(old(session.tables), stored.digest), stored)
    ensures fits ==> session.log == BoundLog(old(session.tables), stored)
                     && session.tables == ApplyAll(old(session.tables), BoundLog(old(session.tables), stored))
  {
    ghost var view := session.tables;
    ghost var ensured := EnsureArtifactLog(view, stored.digest);
    var row := session.EnsureArtifact(stored.digest);
    fits := StorageFits(row, stored);
    if fits {
      session.Flush(BindStorage(stored));
      ApplyAllAppend(view, ensured, BindStorage(stored));
    }
  }

  method Advance(session: Session, req: Request) returns (outcome: Result<PromotionResult, Reason>)
    requires session.log == []
    modifies session
    ensures Matches(Fresh(old(session.tables), req), outcome, session.log)
  {
    hide Finish;
    var i := req.bound.intent;
    var view := session.tables;
    if EventOfVersion(view.events, i.moduleId, i.version).Some? { return Err(VersionOwned); }
    var revision := RevisionOf(view, i.moduleId, i.channel);
    if revision != i.expectedRevision { return Err(StaleRevision); }
    var previous := PointerOf(view, i.moduleId, i.channel);
    var fits := BindArtifact(session, req.stored);
    if !fits { return Err(StorageConflict); }
    ghost var log := BoundLog(view, req.stored);
    FreshReachesFinish(view, req);
    outcome := Publish(session, ApplyAll(view, log), log, req, previous, revision + 1);
  }

  method Publish(session: Session, ghost now: Db, ghost log: seq<Write>, req: Request, previous: Option<Version>,
      revision: nat)
    returns (outcome: Result<PromotionResult, Reason>)
    requires session.tables == now && session.log == log
    modifies session
    ensures Matches(Finish(now, log, req, previous, revision), outcome, session.log)
  {
    var i, c := req.bound.intent, req.bound.candidate;
    var inserted := session.InsertPublishedVersion(i.moduleId, ReleaseOf(c), None, Some(ProvenanceOf(c)));
    if inserted.Err? { return Err(inserted.error); }
    if !inserted.value { return Err(VersionExists); }
    session.Flush(ChannelWrite(i.moduleId, i.channel, Pointer(i.version, revision)));
    var ok := FutureRepresentable(session);
    if !ok { return Err(NotRepresentable); }
    var e := EventFor(req, previous, revision);
    session.Flush(EventWrite(e));
    return Ok(e.result);
  }
}

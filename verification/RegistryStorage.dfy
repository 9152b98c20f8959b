/**
 Registry and artifact store together: bytes are published first and committed second, so
 that at every moment, crashes included, what the registry promises is on disk.
 */
module RegistryStorage {
  import opened ArtifactPaths
  import opened Digests
  import RegistryAudit
  import opened RegistryDigests
  import opened RegistryDocuments
  import opened RegistryImport
  import opened RegistryImportLaws
  import opened RegistryInvariant
  import opened RegistryOverlap
  import opened RegistryPromotion
  import opened RegistryRows
  import RegistryLossless
  import opened RegistrySteps
  import opened RegistryTables
  import Store = StoreProtocol
  import opened StoreRuns
  import opened Wrappers

  /** One answer of the store's verify: the bytes at this path have this digest and size. */
  datatype Verified = Verified(path: string, digest: Digest, size: nat)

  datatype Joint = Joint(store: Store.State, db: Db, verified: set<Verified>)

  datatype JointAction =
    | StoreAction(action: Store.Action)
    | Verify(answer: Verified)
    | Transaction(act: Act)

  const START := Joint(Store.BLANK, EMPTY, {})

  /** publish has reported success for this path and digest. */
  ghost predicate Published(s: Store.State, path: string, d: Digest) {
    exists r :: r in s.reports && r.path == path && r.digest == d
  }

  /**
   promote verifies the artifact after a reported publication and opens its transaction after
   that. Meanwhile, and after a crash as well, the store may go on.
   */
  ghost predicate JointStep(j: Joint, a: JointAction, k: Joint) {
    match a
    case StoreAction(s) => Store.Can(j.store, s) && k == j.(store := Store.After(j.store, s))
    case Verify(v) =>
      && Published(j.store, v.path, v.digest) && Store.Matches(j.store, v.path, v.digest)
      && v.size == |j.store.inodes[j.store.final[v.path]].content|
      && k == j.(verified := j.verified + {v})
    case Transaction(act) =>
      && Step(j.db, act, k.db) && k == j.(db := k.db)
      && (act.PromoteAct? ==> AnswerFor(act.req) in j.verified)
  }

  function AnswerFor(req: Request): Verified {
    Verified(RelativePath(req.bound.intent.moduleId, req.bound.intent.version), req.stored.digest, req.stored.byteSize)
  }

  ghost predicate JointRun(states: seq<Joint>, actions: seq<JointAction>) {
    && |states| == |actions| + 1 && states[0] == START
    && forall i | 0 <= i < |actions| :: JointStep(states[i], actions[i], states[i + 1])
  }

  /** The registered location of the row's digest and the row's own path both hold its bytes. */
  ghost predicate RowStored(j: Joint, r: VersionRow) {
    && Durable(j.store, RelativePath(r.moduleId, r.version), r.digest)
    && r.digest in j.db.artifacts && j.db.artifacts[r.digest].locator.Some?
  }

  ghost predicate ArtifactStored(j: Joint, d: Digest)
    requires d in j.db.artifacts
  {
    var row := j.db.artifacts[d];
    row.locator.Some? ==> Durable(j.store, row.locator.value, d) && row.byteSize == Some(|d.preimage|)
  }

  ghost predicate AnswerHolds(j: Joint, v: Verified) {
    Durable(j.store, v.path, v.digest) && v.size == |v.digest.preimage|
  }

  ghost predicate JointInv(j: Joint) {
    && Store.Inv(j.store) && Inv(j.db)
    && (forall v | v in j.verified :: AnswerHolds(j, v))
    && (forall r | r in j.db.versions && r.promoted :: RowStored(j, r))
    && (forall d | d in j.db.artifacts :: ArtifactStored(j, d))
  }

  lemma StoreKeepsJoint(j: Joint, a: Store.Action)
    requires JointInv(j) && Store.Can(j.store, a)
    ensures JointInv(j.(store := Store.After(j.store, a)))
  {
    hide Store.Can, Store.After, Store.Inv, Inv, Durable, RelativePath;
    var k := j.(store := Store.After(j.store, a));
    Store.StepKeepsInv(j.store, a);
    forall v | v in k.verified ensures AnswerHolds(k, v) {
      assert AnswerHolds(j, v);
      StepKeepsDurable(j.store, a, v.path, v.digest);
    }
    forall r | r in k.db.versions && r.promoted ensures RowStored(k, r) {
      assert RowStored(j, r);
      StepKeepsDurable(j.store, a, RelativePath(r.moduleId, r.version), r.digest);
    }
    forall d | d in k.db.artifacts ensures ArtifactStored(k, d) {
      assert ArtifactStored(j, d);
      if k.db.artifacts[d].locator.Some? { StepKeepsDurable(j.store, a, k.db.artifacts[d].locator.value, d); }
    }
  }

  lemma DurableSize(s: Store.State, p: string, d: Digest)
    requires Durable(s, p, d)
    ensures |s.inodes[s.final[p]].content| == |d.preimage|
  {}

  lemma VerifyKeepsJoint(j: Joint, v: Verified, k: Joint)
    requires JointInv(j) && JointStep(j, Verify(v), k)
    ensures JointInv(k)
  {
    hide Inv, Store.Inv, Durable, RelativePath;
    var r :| r in j.store.reports && r.path == v.path && r.digest == v.digest;
    ReportIsDurable(j.store, r);
    DurableSize(j.store, v.path, v.digest);
    forall x | x in k.verified ensures AnswerHolds(k, x) { if x in j.verified { assert AnswerHolds(j, x); } }
    forall r | r in k.db.versions && r.promoted ensures RowStored(k, r) { assert RowStored(j, r); }
    forall d | d in k.db.artifacts ensures ArtifactStored(k, d) { assert ArtifactStored(j, d); }
  }

  lemma ImportKeepsJoint(j: Joint, ms: seq<ModuleDoc>)
    requires JointInv(j) && j.db.events == [] && Import(j.db, ms).Ok?
    ensures JointInv(j.(db := Import(j.db, ms).value.0))
  {
    hide Inv, Store.Inv, Durable, RelativePath, Import, RowsWell, PointersJoin, EventHolds, UniqueEvents;
    var k := j.(db := Import(j.db, ms).value.0);
    ImportKeepsInv(j.db, ms);
    ImportBindsNothing(j.db, ms);
    RegistryAudit.ImportKeepsEvents(j.db, ms);
    InvRowsWell(k.db);
    NoneRecorded(k.db);
    forall v | v in k.verified ensures AnswerHolds(k, v) { assert AnswerHolds(j, v); }
    forall d | d in k.db.artifacts ensures ArtifactStored(k, d) {
      if d in j.db.artifacts { assert ArtifactStored(j, d); }
    }
  }

  lemma PromotionKeepsJoint(j: Joint, req: Request)
    requires JointInv(j) && Ready(j.db, req) && FromStore(req) && Inv(After(j.db, req)) && AnswerFor(req) in j.verified
    ensures JointInv(j.(db := After(j.db, req)))
  {
    hide Inv, Store.Inv, Durable, RelativePath, After, Ready, FromStore, RowFor, FindRow;
    var k := j.(db := After(j.db, req));
    AfterRows(j.db, req);
    assert AnswerHolds(j, AnswerFor(req));
    forall v | v in k.verified ensures AnswerHolds(k, v) { assert AnswerHolds(j, v); }
    forall r | r in k.db.versions && r.promoted ensures RowStored(k, r) {
      if r in j.db.versions { assert RowStored(j, r); }
    }
    forall d | d in k.db.artifacts ensures ArtifactStored(k, d) {
      if d != req.stored.digest { assert ArtifactStored(j, d); }
    }
  }

  lemma JointStepKeepsInv(j: Joint, a: JointAction, k: Joint)
    requires JointInv(j) && JointStep(j, a, k)
    ensures JointInv(k)
  {
    hide Inv, Store.Inv, Store.Can, Store.After, Durable, RelativePath, After, Ready, FromStore, Import,
      ImportViewFor, Merge, Promotion, IsFresh, ViewFor, RowStored, ArtifactStored, AnswerHolds;
    match a
    case StoreAction(s) => StoreKeepsJoint(j, s);
    case Verify(v) => VerifyKeepsJoint(j, v, k);
    case Transaction(ImportAct(ms, _)) =>
      ImportCommits(j.db, a.act, k.db);
      if k.db != j.db { ImportKeepsJoint(j, ms); }
    case Transaction(PromoteAct(req, view)) =>
      if Promotion(view, req).Ok? {
        if IsFresh(view, req) {
          PromotionKeepsInv(j.db, view, req);
          PromotionKeepsJoint(j, req);
        } else {
          RecordedWritesNothing(j.db, view, req);
          ApplyAllNone(j.db);
        }
      }
  }

  lemma {:induction false} JointRunKeepsInv(states: seq<Joint>, actions: seq<JointAction>, i: nat)
    requires JointRun(states, actions) && i < |states|
    ensures JointInv(states[i])
  {
    hide JointInv, JointStep;
    if i == 0 {
      StartHolds();
    } else {
      JointRunKeepsInv(states, actions, i - 1);
      assert JointStep(states[i - 1], actions[i - 1], states[i - 1 + 1]);
      JointStepKeepsInv(states[i - 1], actions[i - 1], states[i]);
    }
  }

  lemma StartHolds()
    ensures JointInv(START)
  {
    hide Inv, Store.Inv;
    RegistryLossless.EmptyInv();
    BlankHolds();
  }

  /**
   At every moment of every joint run, whatever views the transactions had and wherever the
   machine crashed: the bytes of each promoted version are durably at its canonical path and
   at the location registered for its digest, and they hash to the recorded digest.
   */
  lemma PromotedBytesAreDurable(states: seq<Joint>, actions: seq<JointAction>, i: nat, r: VersionRow)
    requires JointRun(states, actions) && i < |states| && r in states[i].db.versions && r.promoted
    ensures Durable(states[i].store, RelativePath(r.moduleId, r.version), r.digest)
    ensures r.digest in states[i].db.artifacts
    ensures var row := states[i].db.artifacts[r.digest];
            && row.locator.Some? && Durable(states[i].store, row.locator.value, r.digest)
            && row.byteSize == Some(|r.digest.preimage|)
  {
    hide Inv, Store.Inv, Durable, RelativePath, JointRun;
    JointRunKeepsInv(states, actions, i);
    assert RowStored(states[i], r);
    assert ArtifactStored(states[i], r.digest);
  }
}

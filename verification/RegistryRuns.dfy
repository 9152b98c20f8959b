/**
 Whole runs of the registry: any number of imports and promotions, committed or refused, from
 an empty database, each promotion with any view that its locks allow.
 */
module RegistryRuns {
  import opened RegistryCommit
  import opened RegistryDocuments
  import opened RegistryImport
  import opened RegistryOverlap
  import opened RegistryInvariant
  import opened RegistryLoading
  import opened RegistryLossless
  import opened RegistryPromotion
  import opened RegistryRows
  import opened RegistrySteps
  import opened RegistryTables
  import opened Wrappers

  ghost predicate Run(states: seq<Db>, acts: seq<Act>) {
    && |states| == |acts| + 1 && states[0] == EMPTY
    && (forall i | 0 <= i < |acts| :: Step(states[i], acts[i], states[i + 1]))
  }

  lemma {:induction false} RunKeepsInv(states: seq<Db>, acts: seq<Act>, i: nat)
    requires Run(states, acts) && i < |states|
    ensures Inv(states[i])
  {
    hide Inv, Step;
    if i == 0 {
      EmptyInv();
    } else {
      RunKeepsInv(states, acts, i - 1);
      assert Step(states[i - 1], acts[i - 1], states[i]);
      StepKeepsInv(states[i - 1], acts[i - 1], states[i]);
    }
  }

  /** Every reachable state passes the v1 check: pointers and digests are what build_index selects. */
  lemma ReachableIsRepresentable(states: seq<Db>, acts: seq<Act>, i: nat)
    requires Run(states, acts) && i < |states|
    ensures Representable(states[i])
    ensures forall id :: ChannelMap(states[i], id) == ChannelsOf(Project(states[i], id))
  {
    hide Run, Representable, ChannelMap, ChannelsOf, Project, RowsWell, PointersJoin, EventHolds, UniqueEvents,
      PromotedRecorded;
    RunKeepsInv(states, acts, i);
    InvRepresentable(states[i]);
    forall id ensures ChannelMap(states[i], id) == ChannelsOf(Project(states[i], id)) {
      assert PointersAgree(states[i], id);
    }
  }

  /** Between any two moments of a run nothing is lost, rewritten or rewound. */
  lemma {:induction false} RunAdvances(states: seq<Db>, acts: seq<Act>, i: nat, j: nat)
    requires Run(states, acts) && i <= j < |states|
    ensures Advances(states[i], states[j])
    decreases j - i
  {
    hide Advances, Step, Inv;
    if i == j {
      AdvancesReflexive(states[i]);
    } else {
      RunAdvances(states, acts, i, j - 1);
      RunKeepsInv(states, acts, j - 1);
      assert Step(states[j - 1], acts[j - 1], states[j]);
      StepAdvances(states[j - 1], acts[j - 1], states[j]);
      AdvancesTransitive(states[i], states[j - 1], states[j]);
    }
  }

  /** Step i of the run is a promotion that committed under a new key. */
  ghost predicate PromotedAt(states: seq<Db>, acts: seq<Act>, i: nat) {
    i < |acts| && |states| == |acts| + 1 && Promotes(states[i], acts[i], states[i + 1])
  }

  lemma {:induction false} RecordedEvent(events: seq<Event>, e: Event)
    requires e in events && forall i, j | 0 <= i < j < |events| :: events[i].key != events[j].key
    ensures FindEvent(events, e.key) == Some(e)
  {
    if events[0] != e {
      assert e in events[1..];
      var k :| 0 <= k < |events| && events[k] == e;
      RecordedEvent(events[1..], e);
    }
  }

  lemma PromotionRecords(db: Db, act: Act, db': Db)
    requires Inv(db) && Promotes(db, act, db')
    ensures Promotion(act.view, act.req).Ok?
    ensures exists e :: e in db'.events && e.key == act.req.bound.intent.key && e.intent == act.req.bound
                        && e.result == Promotion(act.view, act.req).value.0
  {
    hide Inv, Promotion, ViewFor, FromStore, After, Ready, IsFresh, Step;
    PromotesFresh(db, act, db');
    PromotionKeepsInv(db, act.view, act.req);
    AfterAddsEvent(db, act.req);
    var e := db'.events[|db.events|];
    assert e in db'.events;
  }

  lemma EventPersists(states: seq<Db>, acts: seq<Act>, i: nat, j: nat)
    requires Run(states, acts) && PromotedAt(states, acts, i) && i < j < |states|
    ensures Promotion(acts[i].view, acts[i].req).Ok?
    ensures var req := acts[i].req;
            var found := FindEvent(states[j].events, req.bound.intent.key);
            found.Some? && found.value.intent == req.bound && found.value.result == Promotion(acts[i].view, req).value.0
            && EventOfVersion(states[j].events, req.bound.intent.moduleId, req.bound.intent.version).Some?
  {
    hide Inv, Step, Promotion, Project, FoundKept, EventHolds;
    RunKeepsInv(states, acts, i);
    assert Step(states[i], acts[i], states[i + 1]);
    PromotionRecords(states[i], acts[i], states[i + 1]);
    var req := acts[i].req;
    var e :| e in states[i + 1].events && e.key == req.bound.intent.key && e.intent == req.bound
             && e.result == Promotion(acts[i].view, req).value.0;
    RunAdvances(states, acts, i + 1, j);
    assert e in states[j].events;
    RunKeepsInv(states, acts, j);
    InvRowsWell(states[j]);
    assert EventHolds(states[j], e);
    EventIdentity(states[j], e);
    RecordedEvent(states[j].events, e);
  }

  lemma EventIdentity(db: Db, e: Event)
    requires EventHolds(db, e)
    ensures e.moduleId == e.intent.intent.moduleId && e.version == e.intent.intent.version
  {}

  /**
   Retrying a committed intent after any number of later steps returns the first result,
   marked already-published, and leaves every table as it is.
   */
  lemma RetryAnyTimeLater(states: seq<Db>, acts: seq<Act>, i: nat, j: nat)
    requires Run(states, acts) && PromotedAt(states, acts, i) && i < j < |acts|
    requires acts[j].PromoteAct? && acts[j].req.bound == acts[i].req.bound
    ensures Promotion(acts[i].view, acts[i].req).Ok?
    ensures Promotion(acts[j].view, acts[j].req) ==
            Ok((Promotion(acts[i].view, acts[i].req).value.0.(status := AlreadyPublished), []))
    ensures states[j + 1] == states[j]
  {
    hide Inv, Promotion, ViewFor, FromStore;
    EventPersists(states, acts, i, j);
    RunKeepsInv(states, acts, j);
    assert Step(states[j], acts[j], states[j + 1]);
    RetryAnswers(states[j], acts[j].view, acts[j].req, FindEvent(states[j].events, acts[j].req.bound.intent.key).value);
    ApplyAllNone(states[j]);
  }

  /** Neither a used key with another bound intent nor another key for a promoted version ever commits. */
  lemma NothingElseCommits(states: seq<Db>, acts: seq<Act>, i: nat, j: nat)
    requires Run(states, acts) && PromotedAt(states, acts, i) && i < j < |acts| && acts[j].PromoteAct?
    requires var first, second := acts[i].req.bound, acts[j].req.bound;
             second != first
             && (second.intent.key == first.intent.key
                 || (second.intent.moduleId == first.intent.moduleId && second.intent.version == first.intent.version))
    ensures Promotion(acts[j].view, acts[j].req).Err? && states[j + 1] == states[j]
  {
    hide Inv, Promotion, ViewFor, FromStore;
    EventPersists(states, acts, i, j);
    RunKeepsInv(states, acts, j);
    assert Step(states[j], acts[j], states[j + 1]);
    var first, second := acts[i].req.bound, acts[j].req.bound;
    var db, view, req := states[j], acts[j].view, acts[j].req;
    var found := FindEvent(db.events, second.intent.key);
    if found.Some? {
      if found.value.intent != second {
        KeyReuseRefused(db, view, req, found.value);
      } else {
        InvRowsWell(db);
        SameVersionSameEvent(db, found.value, FindEvent(db.events, first.intent.key).value);
      }
    } else {
      SecondKeyRefused(db, view, req);
    }
  }

  lemma SameVersionSameEvent(db: Db, e: Event, f: Event)
    requires UniqueEvents(db) && e in db.events && f in db.events && EventHolds(db, e) && EventHolds(db, f)
    requires e.intent.intent.key == f.intent.intent.key
             || (e.intent.intent.moduleId == f.intent.intent.moduleId
               && e.intent.intent.version == f.intent.intent.version)
    ensures e == f
  {
    hide CheckIntent, CheckModule, PromotedAs;
  }

  /** Once a promotion has committed, the rest of the run has no committed import, overlapping ones included. */
  lemma NoImportAfterPromotion(states: seq<Db>, acts: seq<Act>, i: nat, j: nat)
    requires Run(states, acts) && PromotedAt(states, acts, i) && i < j < |acts| && acts[j].ImportAct?
    ensures Import(acts[j].seen, acts[j].source).Err? && states[j + 1] == states[j]
  {
    hide Inv, Promotion, Import, ImportViewFor, Merge;
    EventPersists(states, acts, i, j);
    RunKeepsInv(states, acts, j);
    assert Step(states[j], acts[j], states[j + 1]);
    ImportLockedOut(states[j], acts[j].seen, acts[j].source);
  }
}

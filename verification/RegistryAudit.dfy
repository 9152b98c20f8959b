/**
 The promotion events as an audit log: replaying them over the imported pointers gives
 exactly the current pointers and revisions.
 */
module RegistryAudit {
  import opened RegistryDocuments
  import opened RegistryImport
  import opened RegistryImportLaws
  import opened RegistryInvariant
  import opened RegistryLoading
  import opened RegistryOverlap
  import opened RegistryPromotion
  import opened RegistryRepository
  import opened RegistryRuns
  import opened RegistrySteps
  import opened RegistryTables
  import opened SemVer
  import opened Wrappers

  type Pointers = map<(string, Channel), Pointer>

  function Key(e: Event): (string, Channel) { (e.moduleId, e.channel) }

  function Replayed(pointers: Pointers, e: Event): Pointers {
    pointers[Key(e) := Pointer(e.version, (if Key(e) in pointers then pointers[Key(e)].revision else 0) + 1)]
  }

  function Replay(base: Pointers, events: seq<Event>): Pointers {
    if events == [] then base else Replayed(Replay(base, events[..|events| - 1]), events[|events| - 1])
  }

  /** An event that continues the pointers left by the events before it. */
  ghost predicate Continues(pointers: Pointers, e: Event) {
    && e.previous == e.result.previous == (if Key(e) in pointers then Some(pointers[Key(e)].version) else None)
    && e.result.revision == (if Key(e) in pointers then pointers[Key(e)].revision else 0) + 1
    && e.result.target == e.version
  }

  /** The log explains the pointers, and every event names the target and revision it found. */
  ghost predicate Audited(base: Pointers, db: Db) {
    && db.channels == Replay(base, db.events)
    && forall k | 0 <= k < |db.events| :: Continues(Replay(base, db.events[..k]), db.events[k])
  }

  lemma ReplayMore(base: Pointers, events: seq<Event>, e: Event)
    ensures Replay(base, events + [e]) == Replayed(Replay(base, events), e)
  {
    assert (events + [e])[..|events|] == events;
  }

  lemma EventAppended(base: Pointers, a: Db, b: Db, e: Event)
    requires Audited(base, a) && b.events == a.events + [e]
    requires Continues(a.channels, e) && b.channels == Replayed(a.channels, e)
    ensures Audited(base, b)
  {
    ReplayMore(base, a.events, e);
    forall k | 0 <= k < |b.events| ensures Continues(Replay(base, b.events[..k]), b.events[k]) {
      assert b.events[..k] == a.events[..k];
      assert a.events[..|a.events|] == a.events;
    }
  }

  lemma AfterAudited(base: Pointers, db: Db, req: Request)
    requires Audited(base, db)
    ensures Audited(base, After(db, req))
  {
    hide After, Audited, ReleaseOf, NextOrder, ValidSingle, RowOf;
    var i := req.bound.intent;
    AfterAddsEvent(db, req);
    AfterChannels(db, req);
    EventAppended(base, db, After(db, req),
                  EventFor(req, PointerOf(db, i.moduleId, i.channel), RevisionOf(db, i.moduleId, i.channel) + 1));
  }

  /** The pointers at the last moment without an event: what the imports left. */
  ghost function BaseOf(states: seq<Db>, i: nat): Pointers
    requires i < |states|
  {
    if i == 0 || states[i].events == [] then states[i].channels else BaseOf(states, i - 1)
  }

  lemma {:induction false} RunAudited(states: seq<Db>, acts: seq<Act>, i: nat)
    requires Run(states, acts) && i < |states|
    ensures Audited(BaseOf(states, i), states[i])
  {
    hide Inv, Promotion, Import, Merge, ImportViewFor, ViewFor, FromStore, After, Ready, IsFresh;
    if i > 0 && states[i].events != [] {
      var db, act := states[i - 1], acts[i - 1];
      RunAudited(states, acts, i - 1);
      RunKeepsInv(states, acts, i - 1);
      assert Step(db, act, states[i]);
      match act
      case ImportAct(ms, _) =>
        ImportCommits(db, act, states[i]);
        if db.events == [] { ImportKeepsEvents(db, ms); }
      case PromoteAct(req, view) =>
        if Promotion(view, req).Ok? {
          if IsFresh(view, req) {
            PromotionKeepsInv(db, view, req);
            AfterAudited(BaseOf(states, i - 1), db, req);
          } else {
            RecordedWritesNothing(db, view, req);
            ApplyAllNone(db);
          }
        }
    }
  }

  lemma ImportKeepsEvents(db: Db, ms: seq<ModuleDoc>)
    requires Inv(db) && db.events == []
    ensures Import(db, ms).Ok? ==> Import(db, ms).value.0.events == []
  {
    hide Inv, Load, Loaded, ProjectV1, ChannelTargets, Expected, ExpectedChannels;
    if Import(db, ms).Ok? {
      InvTidy(db);
      LoadLoads(db, ms);
      LoadedTidy(db, Import(db, ms).value.0, ms);
    }
  }

  // ----- Revisions count events -----

  function EventsOn(events: seq<Event>, k: (string, Channel)): nat {
    if events == [] then 0
    else EventsOn(events[..|events| - 1], k) + if Key(events[|events| - 1]) == k then 1 else 0
  }

  ghost predicate AllFirst(pointers: Pointers) { forall k | k in pointers :: pointers[k].revision == 1 }

  lemma {:induction false} RevisionsCount(base: Pointers, events: seq<Event>, k: (string, Channel))
    requires AllFirst(base)
    ensures var n := (if k in base then 1 else 0) + EventsOn(events, k);
            && (k in Replay(base, events) <==> n > 0)
            && (k in Replay(base, events) ==> Replay(base, events)[k].revision == n)
  {
    if events != [] { RevisionsCount(base, events[..|events| - 1], k); }
  }

  /** The last event of a channel names its target; without one it is the imported target. */
  function LastTarget(events: seq<Event>, k: (string, Channel)): Option<Version> {
    if events == [] then None
    else if Key(events[|events| - 1]) == k then Some(events[|events| - 1].version)
    else LastTarget(events[..|events| - 1], k)
  }

  lemma {:induction false} TargetsAreLast(base: Pointers, events: seq<Event>, k: (string, Channel))
    requires k in Replay(base, events)
    ensures match LastTarget(events, k)
            case Some(v) => Replay(base, events)[k].version == v
            case None => k in base && Replay(base, events)[k] == base[k]
  {
    if events != [] && Key(events[|events| - 1]) != k { TargetsAreLast(base, events[..|events| - 1], k); }
  }

  lemma {:induction false} ImportedPointersAreFirst(states: seq<Db>, acts: seq<Act>, i: nat)
    requires Run(states, acts) && i < |states| && states[i].events == []
    ensures AllFirst(states[i].channels)
  {
    hide Inv, Promotion, Import, Merge, ImportViewFor, ViewFor, FromStore, Advances, AllFirst;
    if i == 0 {
      FirstOfEmpty();
    } else {
      var db, act := states[i - 1], acts[i - 1];
      RunAdvances(states, acts, i - 1, i);
      RunKeepsInv(states, acts, i - 1);
      EventsGrow(db, states[i]);
      ImportedPointersAreFirst(states, acts, i - 1);
      assert Step(db, act, states[i]);
      match act
      case ImportAct(ms, _) =>
        ImportCommits(db, act, states[i]);
        ImportWritesFirst(db, ms);
      case PromoteAct(req, view) => PromotionWithoutEvent(db, view, req, states[i]);
    }
  }

  lemma FirstOfEmpty()
    ensures AllFirst(EMPTY.channels)
  {}

  lemma EventsGrow(a: Db, b: Db)
    requires Advances(a, b)
    ensures a.events <= b.events
  {}

  lemma ImportWritesFirst(db: Db, ms: seq<ModuleDoc>)
    requires Inv(db) && AllFirst(db.channels)
    ensures Import(db, ms).Ok? ==> AllFirst(Import(db, ms).value.0.channels)
  {
    hide Inv, Load, Tidy, VersionsKept, Names, Registers, Stored, PointsAs, ImportItems, Pointings, IndexEntries,
      ProjectV1, ChannelTargets, Expected, ExpectedChannels;
    if Import(db, ms).Ok? {
      InvTidy(db);
      LoadLoads(db, ms);
      var d := Import(db, ms).value.0;
      forall k | k in d.channels ensures d.channels[k].revision == 1 {
        assert k in db.channels || Sets(d, k, Pointings(IndexEntries(ms)));
      }
    }
  }

  lemma PromotionWithoutEvent(db: Db, view: Db, req: Request, db': Db)
    requires Inv(db) && Step(db, PromoteAct(req, view), db') && db'.events == []
    ensures db' == db
  {
    hide Inv, Promotion, ViewFor, FromStore, IsFresh, After, Ready;
    if Promotion(view, req).Ok? {
      if IsFresh(view, req) {
        PromotionKeepsInv(db, view, req);
        AfterAddsEvent(db, req);
      } else {
        RecordedWritesNothing(db, view, req);
        ApplyAllNone(db);
      }
    }
  }

  lemma {:induction false} BaseIsFirst(states: seq<Db>, acts: seq<Act>, i: nat)
    requires Run(states, acts) && i < |states|
    ensures AllFirst(BaseOf(states, i))
  {
    if i == 0 || states[i].events == [] {
      ImportedPointersAreFirst(states, acts, i);
    } else {
      BaseIsFirst(states, acts, i - 1);
    }
  }

  /**
   In every reachable state each pointer is what its last event promoted, or the imported one,
   and its revision is one for the import plus one for each event of its channel.
   */
  lemma AuditExplainsPointers(states: seq<Db>, acts: seq<Act>, i: nat, k: (string, Channel))
    requires Run(states, acts) && i < |states|
    ensures var db, base := states[i], BaseOf(states, i);
            var n := (if k in base then 1 else 0) + EventsOn(db.events, k);
            && (k in db.channels <==> n > 0)
            && (k in db.channels ==>
                  db.channels[k].revision == n
                  && match LastTarget(db.events, k)
                     case Some(v) => db.channels[k].version == v
                     case None => k in base && db.channels[k] == base[k])
  {
    hide Run, Replay, LastTarget, EventsOn, AllFirst;
    RunAudited(states, acts, i);
    BaseIsFirst(states, acts, i);
    var base := BaseOf(states, i);
    RevisionsCount(base, states[i].events, k);
    if k in states[i].channels { TargetsAreLast(base, states[i].events, k); }
  }
}

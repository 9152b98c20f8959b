/**
 The lossless import of a Registry v1 source: publishers, modules, versions in canonical
 order and channel pointers in one transaction, which commits only if both views read back
 from the tables equal the source.
 */
module RegistryImport {
  import opened RegistryDocuments
  import opened RegistryPromotion
  import opened RegistryRepository
  import opened RegistryTables
  import opened SemVer
  import opened StableSort
  import opened Wrappers

  datatype ImportItem = ImportItem(id: string, release: Release, position: nat)

  datatype Pointing = Pointing(id: string, channel: Channel, version: Version)

  function ModuleRowOf(m: ModuleDoc): ModuleRow {
    ModuleRow(m.name, m.publisherId, m.classification, m.license, m.sourceRepository, m.description,
              m.homepage, m.documentationUrl)
  }

  /** The releases of one module in canonical order, each with its position. */
  function ModuleItems(m: ModuleDoc): seq<ImportItem> {
    var c := CanonicalModule(m);
    seq(|c.versions|, i requires 0 <= i < |c.versions| => ImportItem(m.id, c.versions[i], i))
  }

  function ImportItems(ms: seq<ModuleDoc>): seq<ImportItem> {
    if ms == [] then [] else ImportItems(ms[..|ms| - 1]) + ModuleItems(ms[|ms| - 1])
  }

  const CHANNELS := [Stable, Beta, Nightly]

  function PointingsAmong(e: Entry, channels: seq<Channel>): seq<Pointing> {
    if channels == [] then []
    else
      var n := |channels| - 1;
      PointingsAmong(e, channels[..n]) +
      if channels[n] in e.channels then [Pointing(e.id, channels[n], e.channels[channels[n]].version)] else []
  }

  function Pointings(entries: seq<Entry>): seq<Pointing> {
    if entries == [] then []
    else Pointings(entries[..|entries| - 1]) + PointingsAmong(entries[|entries| - 1], CHANNELS)
  }

  function IndexEntries(ms: seq<ModuleDoc>): seq<Entry> {
    var sorted := Sort(ms, ModuleIdLess);
    seq(|sorted|, k requires 0 <= k < |sorted| => EntryOf(sorted[k]))
  }

  // ----- One record -----

  function AddPublisher(db: Db, m: ModuleDoc): Result<Db, Reason> {
    if m.publisherId !in db.publishers then Ok(Apply(db, PublisherWrite(m.publisherId, m.publisherName)))
    else if db.publishers[m.publisherId] == m.publisherName then Ok(db)
    else Err(RecordConflict)
  }

  function AddModule(db: Db, m: ModuleDoc): Result<Db, Reason> {
    if m.id !in db.modules then Ok(Apply(db, ModuleWrite(m.id, ModuleRowOf(m))))
    else if db.modules[m.id] == ModuleRowOf(m) then Ok(db)
    else Err(RecordConflict)
  }

  function AddItem(db: Db, it: ImportItem): Result<(Db, bool), Reason> {
    match InsertVersion(db, it.id, it.release, Some(it.position), None)
    case Err(e) => Err(e)
    case Ok((log, inserted)) => Ok((ApplyAll(db, log), inserted))
  }

  function AddPointing(db: Db, p: Pointing): Result<Db, Reason> {
    if (p.id, p.channel) !in db.channels then Ok(Apply(db, ChannelWrite(p.id, p.channel, Pointer(p.version, 1))))
    else if db.channels[(p.id, p.channel)].version == p.version then Ok(db)
    else Err(RecordConflict)
  }

  // ----- All records -----

  function AddPublishers(db: Db, ms: seq<ModuleDoc>): Result<Db, Reason> {
    if ms == [] then Ok(db)
    else
      match AddPublishers(db, ms[..|ms| - 1])
      case Err(e) => Err(e)
      case Ok(d) => AddPublisher(d, ms[|ms| - 1])
  }

  function AddModules(db: Db, ms: seq<ModuleDoc>): Result<Db, Reason> {
    if ms == [] then Ok(db)
    else
      match AddModules(db, ms[..|ms| - 1])
      case Err(e) => Err(e)
      case Ok(d) => AddModule(d, ms[|ms| - 1])
  }

  function AddItems(db: Db, items: seq<ImportItem>): Result<(Db, nat), Reason> {
    if items == [] then Ok((db, 0))
    else
      match AddItems(db, items[..|items| - 1])
      case Err(e) => Err(e)
      case Ok((d, n)) =>
        match AddItem(d, items[|items| - 1])
        case Err(e) => Err(e)
        case Ok((d', inserted)) => Ok((d', if inserted then n + 1 else n))
  }

  function AddPointings(db: Db, ps: seq<Pointing>): Result<Db, Reason> {
    if ps == [] then Ok(db)
    else
      match AddPointings(db, ps[..|ps| - 1])
      case Err(e) => Err(e)
      case Ok(d) => AddPointing(d, ps[|ps| - 1])
  }

  // ----- The whole import -----

  function Ids(ms: seq<ModuleDoc>): set<string> { set m | m in ms :: m.id }

  function DocOf(ms: seq<ModuleDoc>, id: string): (m: ModuleDoc)
    requires id in Ids(ms)
    ensures m in ms && m.id == id
  {
    if ms[|ms| - 1].id == id then ms[|ms| - 1] else DocOf(ms[..|ms| - 1], id)
  }

  function Expected(ms: seq<ModuleDoc>): map<string, ModuleDoc> {
    map id | id in Ids(ms) :: CanonicalModule(DocOf(ms, id))
  }

  function ExpectedChannels(ms: seq<ModuleDoc>): map<string, map<Channel, Target>> {
    map id | id in Ids(ms) :: ChannelsOf(DocOf(ms, id).versions)
  }

  /** Everything before the two parity checks. */
  function Load(db: Db, ms: seq<ModuleDoc>): Result<(Db, nat), Reason> {
    match AddPublishers(db, ms)
    case Err(e) => Err(e)
    case Ok(a) =>
      match AddModules(a, ms)
      case Err(e) => Err(e)
      case Ok(b) =>
        match AddItems(b, ImportItems(ms))
        case Err(e) => Err(e)
        case Ok((c, n)) =>
          match AddPointings(c, Pointings(IndexEntries(ms)))
          case Err(e) => Err(e)
          case Ok(d) => Ok((d, n))
  }

  /** import_registry: the tables it commits and the number of versions it inserted. */
  function Import(db: Db, ms: seq<ModuleDoc>): Result<(Db, nat), Reason> {
    match Load(db, ms)
    case Err(e) => Err(e)
    case Ok((d, n)) =>
      if ProjectV1(d) != Expected(ms) then Err(ProjectionDiffers)
      else if ChannelTargets(d) != ExpectedChannels(ms) then Err(ChannelsDiffer)
      else Ok((d, n))
  }

  // ----- The service -----

  lemma ItemsMore(ms: seq<ModuleDoc>, i: nat)
    requires i < |ms|
    ensures ImportItems(ms[..i + 1]) == ImportItems(ms[..i]) + ModuleItems(ms[i])
  {
    assert ms[..i + 1][..i] == ms[..i];
  }

  /** A refused record refuses everything after it; otherwise the insertions add up. */
  lemma {:induction false} AddItemsAppend(db: Db, items: seq<ImportItem>, more: seq<ImportItem>)
    ensures AddItems(db, items + more) ==
            match AddItems(db, items)
            case Err(e) => Err(e)
            case Ok((d, n)) =>
              match AddItems(d, more)
              case Err(e) => Err(e)
              case Ok((d', k)) => Ok((d', n + k))
  {
    hide AddItem;
    if more == [] {
      assert items + more == items;
    } else {
      var n := |more| - 1;
      AddItemsAppend(db, items, more[..n]);
      assert (items + more)[..|items + more| - 1] == items + more[..n];
    }
  }

  lemma AddItemsOne(db: Db, it: ImportItem)
    ensures AddItems(db, [it]) ==
            match AddItem(db, it)
            case Err(e) => Err(e)
            case Ok((d, inserted)) => Ok((d, if inserted then 1 else 0))
  {
    hide AddItem;
    assert [it][..0] == [];
  }

  lemma {:induction false} AddPointingsAppend(db: Db, ps: seq<Pointing>, more: seq<Pointing>)
    ensures AddPointings(db, ps + more) ==
            match AddPointings(db, ps)
            case Err(e) => Err(e)
            case Ok(d) => AddPointings(d, more)
  {
    hide AddPointing;
    if more == [] {
      assert ps + more == ps;
    } else {
      var n := |more| - 1;
      AddPointingsAppend(db, ps, more[..n]);
      assert (ps + more)[..|ps + more| - 1] == ps + more[..n];
    }
  }

  lemma {:induction false} AddPublishersFails(db: Db, ms: seq<ModuleDoc>, i: nat)
    requires i <= |ms| && AddPublishers(db, ms[..i]).Err?
    ensures AddPublishers(db, ms) == AddPublishers(db, ms[..i])
    decreases |ms|
  {
    if i == |ms| {
      assert ms[..i] == ms;
    } else {
      var n := |ms| - 1;
      assert ms[..n][..i] == ms[..i];
      AddPublishersFails(db, ms[..n], i);
    }
  }

  lemma {:induction false} AddModulesFails(db: Db, ms: seq<ModuleDoc>, i: nat)
    requires i <= |ms| && AddModules(db, ms[..i]).Err?
    ensures AddModules(db, ms) == AddModules(db, ms[..i])
    decreases |ms|
  {
    if i == |ms| {
      assert ms[..i] == ms;
    } else {
      var n := |ms| - 1;
      assert ms[..n][..i] == ms[..i];
      AddModulesFails(db, ms[..n], i);
    }
  }

  lemma {:induction false} ItemsPrefix(ms: seq<ModuleDoc>, i: nat)
    requires i <= |ms|
    ensures ImportItems(ms[..i]) <= ImportItems(ms)
    decreases |ms| - i
  {
    if i == |ms| {
      assert ms[..i] == ms;
    } else {
      ItemsMore(ms, i);
      ItemsPrefix(ms, i + 1);
    }
  }

  lemma {:induction false} PointingsPrefix(es: seq<Entry>, i: nat)
    requires i <= |es|
    ensures Pointings(es[..i]) <= Pointings(es)
    decreases |es| - i
  {
    if i == |es| {
      assert es[..i] == es;
    } else {
      assert es[..i + 1][..i] == es[..i];
      PointingsPrefix(es, i + 1);
    }
  }

  method StorePublishers(session: Session, ms: seq<ModuleDoc>) returns (ok: bool)
    modifies session
    ensures ok ==> AddPublishers(old(session.tables), ms) == Ok(session.tables)
    ensures !ok ==> AddPublishers(old(session.tables), ms) == Err(RecordConflict)
  {
    ghost var db := session.tables;
    for i := 0 to |ms|
      invariant AddPublishers(db, ms[..i]) == Ok(session.tables)
    {
      assert ms[..i + 1][..i] == ms[..i];
      ok := session.EnsurePublisher(ms[i].publisherId, ms[i].publisherName);
      if !ok { AddPublishersFails(db, ms, i + 1); return false; }
    }
    assert ms[..|ms|] == ms;
    return true;
  }

  method StoreModules(session: Session, ms: seq<ModuleDoc>) returns (ok: bool)
    modifies session
    ensures ok ==> AddModules(old(session.tables), ms) == Ok(session.tables)
    ensures !ok ==> AddModules(old(session.tables), ms) == Err(RecordConflict)
  {
    ghost var db := session.tables;
    for i := 0 to |ms|
      invariant AddModules(db, ms[..i]) == Ok(session.tables)
    {
      assert ms[..i + 1][..i] == ms[..i];
      ok := session.EnsureModule(ms[i].id, ModuleRowOf(ms[i]));
      if !ok { AddModulesFails(db, ms, i + 1); return false; }
    }
    assert ms[..|ms|] == ms;
    return true;
  }

  method StoreModuleVersions(session: Session, m: ModuleDoc) returns (outcome: Result<nat, Reason>)
    modifies session
    ensures match AddItems(old(session.tables), ModuleItems(m))
            case Err(e) => outcome == Err(e)
            case Ok((d, n)) => outcome == Ok(n) && session.tables == d
  {
    hide InsertVersion, ApplyAll, CanonicalModule, AddItems;
    ghost var db, items := session.tables, ModuleItems(m);
    var releases := CanonicalModule(m).versions;
    var inserted := 0;
    AddItemsNone(db);
    for position := 0 to |releases|
      invariant AddItems(db, items[..position]) == Ok((session.tables, inserted))
    {
      ghost var it := items[position];
      AddItemsAppend(db, items[..position], [it]);
      AddItemsOne(session.tables, it);
      AddItemsAppend(db, items[..position] + [it], items[position + 1..]);
      assert items[..position] + [it] == items[..position + 1];
      assert items[..position + 1] + items[position + 1..] == items;
      var one := session.InsertPublishedVersion(m.id, releases[position], Some(position), None);
      if one.Err? { return Err(one.error); }
      if one.value { inserted := inserted + 1; }
    }
    assert items[..|releases|] == items;
    return Ok(inserted);
  }

  lemma AddItemsNone(db: Db)
    ensures AddItems(db, []) == Ok((db, 0))
  {}

  method StoreVersions(session: Session, ms: seq<ModuleDoc>) returns (outcome: Result<nat, Reason>)
    modifies session
    ensures match AddItems(old(session.tables), ImportItems(ms))
            case Err(e) => outcome == Err(e)
            case Ok((d, n)) => outcome == Ok(n) && session.tables == d
  {
    hide ModuleItems, AddItems;
    ghost var db := session.tables;
    var inserted := 0;
    AddItemsNone(db);
    for i := 0 to |ms|
      invariant AddItems(db, ImportItems(ms[..i])) == Ok((session.tables, inserted))
    {
      ghost var done, items := ImportItems(ms[..i]), ModuleItems(ms[i]);
      ItemsMore(ms, i);
      ItemsPrefix(ms, i + 1);
      AddItemsAppend(db, done, items);
      ghost var rest := ImportItems(ms)[|done + items|..];
      assert ImportItems(ms) == done + items + rest;
      AddItemsAppend(db, done + items, rest);
      var more := StoreModuleVersions(session, ms[i]);
      if more.Err? { return more; }
      inserted := inserted + more.value;
    }
    assert ms[..|ms|] == ms;
    return Ok(inserted);
  }

  lemma AddPointingsOne(db: Db, p: Pointing)
    ensures AddPointings(db, [p]) == AddPointing(db, p)
  {
    assert [p][..0] == [];
  }

  /** One more pointer, and that a refused one refuses the whole entry. */
  lemma EntryStep(db: Db, e: Entry, n: nat, now: Db)
    requires n < |CHANNELS| && AddPointings(db, PointingsAmong(e, CHANNELS[..n])) == Ok(now)
    ensures CHANNELS[n] !in e.channels ==> AddPointings(db, PointingsAmong(e, CHANNELS[..n + 1])) == Ok(now)
    ensures CHANNELS[n] in e.channels ==>
              var p := Pointing(e.id, CHANNELS[n], e.channels[CHANNELS[n]].version);
              && AddPointings(db, PointingsAmong(e, CHANNELS[..n + 1])) == AddPointing(now, p)
              && (AddPointing(now, p).Err? ==> AddPointings(db, PointingsAmong(e, CHANNELS)) == AddPointing(now, p))
  {
    hide AddPointings, AddPointing;
    var before := PointingsAmong(e, CHANNELS[..n]);
    assert CHANNELS[..n + 1][..n] == CHANNELS[..n];
    if CHANNELS[n] in e.channels {
      var p := Pointing(e.id, CHANNELS[n], e.channels[CHANNELS[n]].version);
      PointingsAmongPrefix(e, n + 1);
      AddPointingsAppend(db, before, [p]);
      AddPointingsOne(now, p);
      var rest := PointingsAmong(e, CHANNELS)[|before + [p]|..];
      assert PointingsAmong(e, CHANNELS) == before + [p] + rest;
      AddPointingsAppend(db, before + [p], rest);
    } else {
      assert before + [] == before;
    }
  }

  lemma NoPointings(db: Db, e: Entry)
    ensures AddPointings(db, PointingsAmong(e, CHANNELS[..0])) == Ok(db)
  {}

  method StoreEntryPointers(session: Session, e: Entry) returns (ok: bool)
    modifies session
    ensures ok ==> AddPointings(old(session.tables), PointingsAmong(e, CHANNELS)) == Ok(session.tables)
    ensures !ok ==> AddPointings(old(session.tables), PointingsAmong(e, CHANNELS)) == Err(RecordConflict)
  {
    hide AddPointings, PointingsAmong;
    ghost var db := session.tables;
    NoPointings(db, e);
    for n := 0 to |CHANNELS|
      invariant AddPointings(db, PointingsAmong(e, CHANNELS[..n])) == Ok(session.tables)
    {
      EntryStep(db, e, n, session.tables);
      if CHANNELS[n] in e.channels {
        ok := session.EnsureChannel(e.id, CHANNELS[n], e.channels[CHANNELS[n]].version);
        if !ok { return false; }
      }
    }
    assert CHANNELS[..|CHANNELS|] == CHANNELS;
    return true;
  }

  lemma AddPointingsNone(db: Db)
    ensures AddPointings(db, []) == Ok(db)
  {}

  method StorePointers(session: Session, entries: seq<Entry>) returns (ok: bool)
    modifies session
    ensures ok ==> AddPointings(old(session.tables), Pointings(entries)) == Ok(session.tables)
    ensures !ok ==> AddPointings(old(session.tables), Pointings(entries)) == Err(RecordConflict)
  {
    hide AddPointings, PointingsAmong;
    ghost var db := session.tables;
    AddPointingsNone(db);
    for i := 0 to |entries|
      invariant AddPointings(db, Pointings(entries[..i])) == Ok(session.tables)
    {
      ghost var done, ps := Pointings(entries[..i]), PointingsAmong(entries[i], CHANNELS);
      assert entries[..i + 1][..i] == entries[..i];
      PointingsPrefix(entries, i + 1);
      AddPointingsAppend(db, done, ps);
      ghost var rest := Pointings(entries)[|done + ps|..];
      assert Pointings(entries) == done + ps + rest;
      AddPointingsAppend(db, done + ps, rest);
      ok := StoreEntryPointers(session, entries[i]);
      if !ok { return false; }
    }
    assert entries[..|entries|] == entries;
    return true;
  }

  lemma {:induction false} PointingsAmongPrefix(e: Entry, n: nat)
    requires n <= |CHANNELS|
    ensures PointingsAmong(e, CHANNELS[..n]) <= PointingsAmong(e, CHANNELS)
    decreases |CHANNELS| - n
  {
    if n == |CHANNELS| {
      assert CHANNELS[..n] == CHANNELS;
    } else {
      assert CHANNELS[..n + 1][..n] == CHANNELS[..n];
      PointingsAmongPrefix(e, n + 1);
    }
  }

  /** The documents and the index of the source, keyed by module ID. */
  method Keyed(ms: seq<ModuleDoc>)
    returns (documents: map<string, ModuleDoc>, channels: map<string, map<Channel, Target>>)
    ensures documents == Expected(ms) && channels == ExpectedChannels(ms)
  {
    hide CanonicalModule, ChannelsOf;
    documents, channels := map[], map[];
    for i := 0 to |ms|
      invariant documents == Expected(ms[..i]) && channels == ExpectedChannels(ms[..i])
    {
      KeyedMore(ms[..i], ms[i]);
      assert ms[..i + 1] == ms[..i] + [ms[i]];
      documents := documents[ms[i].id := CanonicalModule(ms[i])];
      channels := channels[ms[i].id := ChannelsOf(ms[i].versions)];
    }
    assert ms[..|ms|] == ms;
  }

  lemma DocOfMore(ms: seq<ModuleDoc>, m: ModuleDoc, id: string)
    requires id in Ids(ms + [m])
    ensures id != m.id ==> id in Ids(ms)
    ensures DocOf(ms + [m], id) == if id == m.id then m else DocOf(ms, id)
  {
    assert (ms + [m])[..|ms|] == ms;
  }

  lemma KeyedMore(ms: seq<ModuleDoc>, m: ModuleDoc)
    ensures Expected(ms + [m]) == Expected(ms)[m.id := CanonicalModule(m)]
    ensures ExpectedChannels(ms + [m]) == ExpectedChannels(ms)[m.id := ChannelsOf(m.versions)]
  {
    hide CanonicalModule, ChannelsOf, DocOf;
    assert Ids(ms + [m]) == Ids(ms) + {m.id} by { assert m in ms + [m]; }
    forall id | id in Ids(ms + [m]) ensures DocOf(ms + [m], id) == if id == m.id then m else DocOf(ms, id) {
      DocOfMore(ms, m, id);
    }
  }

  method ImportRegistry(database: RegistryDatabase, ms: seq<ModuleDoc>) returns (outcome: Result<nat, Reason>)
    modifies database
    ensures match Import(old(database.committed), ms)
            case Err(e) => outcome == Err(e) && database.committed == old(database.committed)
            case Ok((d, n)) => outcome == Ok(n) && database.committed == d
  {
    hide AddPublishers, AddModules, AddItems, AddPointings, ImportItems, Pointings, ProjectV1, ChannelTargets,
      Expected, ExpectedChannels;
    var expected, channels := Keyed(ms);
    var session := new Session(database.committed);
    var ok := StorePublishers(session, ms);
    if !ok { return Err(RecordConflict); }
    ok := StoreModules(session, ms);
    if !ok { return Err(RecordConflict); }
    var inserted := StoreVersions(session, ms);
    if inserted.Err? { return Err(inserted.error); }
    var entries := BuildIndex(ms);
    assert entries == IndexEntries(ms);
    ok := StorePointers(session, entries);
    if !ok { return Err(RecordConflict); }
    var projection := session.ReadProjection();
    if projection != expected { return Err(ProjectionDiffers); }
    var targets := session.ReadChannelTargets();
    if targets != channels { return Err(ChannelsDiffer); }
    database.committed := session.tables;
    return Ok(inserted.value);
  }
}

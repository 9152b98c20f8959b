/**
 The metadata repository of one transaction: insert-or-compare records, insertion of an
 immutable published version, and the two read-back views. Every method is specified by a
 function of the tables that the transaction sees.
 */
module RegistryRepository {
  import opened ArtifactPaths
  import opened Digests
  import opened RegistryDocuments
  import opened RegistryTables
  import opened SemVer
  import opened StableSort
  import opened Text
  import opened Wrappers

  /** Why a transaction is refused and rolled back. */
  datatype Reason =
    | InvalidKey | CandidateMismatch | StoredDiffers | ModuleMismatch | InvalidDocument
    | KeyReused | VersionOwned | StaleRevision | StorageConflict | VersionExists
    | MissingModule | OrderConflict | ImmutableConflict | ProvenanceConflict
    | MissingDependency | RecordConflict | NotRepresentable | ProjectionDiffers | ChannelsDiffer

  // ----- Specification -----

  predicate ValidSingle(id: string, r: Release) { IsModuleId(id) && ValidRelease(r, id) }

  function HistoricalProvenance(m: ModuleRow, r: Release): Provenance {
    Provenance(m.sourceRepository, r.sourceTag, r.sourceCommit, None, None, None, None, None, None)
  }

  function MaxOrder(rows: seq<VersionRow>): (n: nat)
    ensures forall r | r in rows :: r.order <= n
    ensures rows != [] ==> exists r :: r in rows && r.order == n
  {
    if rows == [] then 0
    else var n := MaxOrder(rows[1..]); if rows[0].order > n then rows[0].order else n
  }

  function NextOrder(db: Db, id: string): nat {
    var rows := Filter(db.versions, OfModule(id));
    if rows == [] then 0 else MaxOrder(rows) + 1
  }

  function RowOf(id: string, r: Release, order: nat, promoted: bool, evidence: Provenance): VersionRow {
    VersionRow(id, r.version, r.sha256, r.url, order, r.bundleFormat, r.sourceTag, r.sourceCommit,
               r.host, r.sdk, r.channel, promoted, evidence)
  }

  function DependencyRows(id: string, r: Release): map<(string, Version, string), string> {
    map d | d in r.requiresModules :: (id, r.version, d) := r.requiresModules[d]
  }

  function EnsureArtifactLog(db: Db, d: Digest): seq<Write> {
    if d in db.artifacts then [] else [ArtifactWrite(d, ArtifactRow(None, None))]
  }

  function InsertWrite(id: string, r: Release, order: nat, promoted: bool, e: Provenance): Write {
    VersionWrite(RowOf(id, r, order, promoted, e), DependencyRows(id, r))
  }

  /** insert_published_version: what it writes, and whether it inserted the version. */
  function InsertVersion(db: Db, id: string, r: Release, order: Option<nat>, evidence: Option<Provenance>)
    : Result<(seq<Write>, bool), Reason>
  {
    if id !in db.modules then Err(MissingModule)
    else if !ValidSingle(id, r) then Err(InvalidDocument)
    else
      var e := if evidence.Some? then evidence.value else HistoricalProvenance(db.modules[id], r);
      match FindRow(db.versions, id, r.version)
      case Some(previous) =>
        if order.Some? && previous.order != order.value then Err(OrderConflict)
        else if ReleaseStructure(db, previous) != r || previous.promoted != evidence.Some? then Err(ImmutableConflict)
        else if previous.provenance != e then Err(ProvenanceConflict)
        else Ok(([], false))
      case None =>
        var n := if order.Some? then order.value else NextOrder(db, id);
        if r.requiresModules.Keys <= db.modules.Keys then
          Ok((EnsureArtifactLog(db, r.sha256) + [InsertWrite(id, r, n, evidence.Some?, e)], true))
        else Err(MissingDependency)
  }

  // ----- Projection order: ORDER BY module_id, historical_order -----

  predicate ModuleThenOrder(a: VersionRow, b: VersionRow) {
    TextLess(a.moduleId, b.moduleId) || (a.moduleId == b.moduleId && a.order < b.order)
  }

  lemma ModuleThenOrderIsWeakOrder()
    ensures WeakOrder(ModuleThenOrder)
  {
    forall x: VersionRow, y: VersionRow, z: VersionRow
      ensures !(ModuleThenOrder(x, y) && ModuleThenOrder(y, x))
      ensures ModuleThenOrder(x, y) && ModuleThenOrder(y, z) ==> ModuleThenOrder(x, z)
      ensures !ModuleThenOrder(x, y) && !ModuleThenOrder(y, z) ==> !ModuleThenOrder(x, z)
    {
      TextOrder(x.moduleId, y.moduleId, z.moduleId);
      TextOrder(z.moduleId, y.moduleId, x.moduleId);
      TextOrder(x.moduleId, x.moduleId, x.moduleId);
      TextOrder(x.moduleId, z.moduleId, y.moduleId);
    }
  }

  lemma {:induction false} FilterInserted(x: VersionRow, s: seq<VersionRow>, id: string)
    requires Ascending(s, ModuleThenOrder)
    ensures Filter(Insert(x, s, ModuleThenOrder), OfModule(id)) ==
            if x.moduleId == id then Insert(x, Filter(s, OfModule(id)), OrderLess) else Filter(s, OfModule(id))
  {
    if s != [] {
      var t := s[1..];
      if ModuleThenOrder(s[0], x) {
        FilterInserted(x, t, id);
        assert Insert(x, s, ModuleThenOrder)[1..] == Insert(x, t, ModuleThenOrder);
        TextOrder(x.moduleId, x.moduleId, x.moduleId);
        if s[0].moduleId == id { assert Filter(s, OfModule(id))[1..] == Filter(t, OfModule(id)); }
      } else {
        assert Insert(x, s, ModuleThenOrder)[1..] == s;
        ModuleThenOrderIsWeakOrder();
        var f := Filter(s, OfModule(id));
        if f != [] && x.moduleId == id {
          assert f[0] in f;
          var k :| 0 <= k < |s| && s[k] == f[0];
          assert !ModuleThenOrder(s[k], x);
        }
      }
    }
  }

  /** Reading all rows by module and order, the rows of one module come in its own order. */
  lemma {:induction false} FilterSorted(rows: seq<VersionRow>, id: string)
    ensures Filter(Sort(rows, ModuleThenOrder), OfModule(id)) == Sort(Filter(rows, OfModule(id)), OrderLess)
  {
    if rows != [] {
      ModuleThenOrderIsWeakOrder();
      var t := rows[1..];
      FilterSorted(t, id);
      SortSorts(t, ModuleThenOrder);
      FilterInserted(rows[0], Sort(t, ModuleThenOrder), id);
      if rows[0].moduleId == id { assert Filter(rows, OfModule(id))[1..] == Filter(t, OfModule(id)); }
    }
  }

  // ----- The session -----

  /** One transaction: the tables it sees, its own flushed rows included, and what it has flushed. */
  class Session {
    var tables: Db
    var log: seq<Write>

    constructor (view: Db)
      ensures tables == view && log == []
    {
      tables, log := view, [];
    }

    method Flush(w: Write)
      modifies this
      ensures tables == Apply(old(tables), w) && log == old(log) + [w]
    {
      tables, log := Apply(tables, w), log + [w];
    }

    method EnsurePublisher(id: string, name: string) returns (ok: bool)
      modifies this
      ensures ok <==> (id in old(tables).publishers ==> old(tables).publishers[id] == name)
      ensures ok ==> log == old(log) + if id in old(tables).publishers then [] else [PublisherWrite(id, name)]
      ensures ok ==>
              tables == if id in old(tables).publishers then old(tables)
              else Apply(old(tables), PublisherWrite(id, name))
    {
      if id !in tables.publishers { Flush(PublisherWrite(id, name)); }
      ok := tables.publishers[id] == name;
    }

    method EnsureModule(id: string, row: ModuleRow) returns (ok: bool)
      modifies this
      ensures ok <==> (id in old(tables).modules ==> old(tables).modules[id] == row)
      ensures ok ==> log == old(log) + if id in old(tables).modules then [] else [ModuleWrite(id, row)]
      ensures ok ==>
              tables == if id in old(tables).modules then old(tables) else Apply(old(tables), ModuleWrite(id, row))
    {
      if id !in tables.modules { Flush(ModuleWrite(id, row)); }
      ok := tables.modules[id] == row;
    }

    /** Only the digest is compared; an existing row keeps its storage columns. */
    method EnsureArtifact(d: Digest) returns (row: ArtifactRow)
      modifies this
      ensures log == old(log) + EnsureArtifactLog(old(tables), d)
      ensures tables == ApplyAll(old(tables), EnsureArtifactLog(old(tables), d))
      ensures row == if d in old(tables).artifacts then old(tables).artifacts[d] else ArtifactRow(None, None)
    {
      if d !in tables.artifacts { Flush(ArtifactWrite(d, ArtifactRow(None, None))); }
      row := tables.artifacts[d];
    }

    /** An existing pointer keeps its revision; a new one starts at 1. */
    method EnsureChannel(id: string, c: Channel, v: Version) returns (ok: bool)
      modifies this
      ensures ok <==> ((id, c) in old(tables).channels ==> old(tables).channels[(id, c)].version == v)
      ensures ok ==>
              log == old(log) + if (id, c) in old(tables).channels then [] else [ChannelWrite(id, c, Pointer(v, 1))]
      ensures ok ==> tables == if (id, c) in old(tables).channels then old(tables)
                               else Apply(old(tables), ChannelWrite(id, c, Pointer(v, 1)))
    {
      if (id, c) !in tables.channels { Flush(ChannelWrite(id, c, Pointer(v, 1))); }
      ok := tables.channels[(id, c)].version == v;
    }

    method AllRegistered(targets: set<string>) returns (known: bool)
      ensures known <==> targets <= tables.modules.Keys
    {
      var rest := targets;
      while rest != {}
        invariant rest <= targets && targets - rest <= tables.modules.Keys
      {
        var target :| target in rest;
        if target !in tables.modules { return false; }
        rest := rest - {target};
      }
      return true;
    }

    method InsertPublishedVersion(id: string, r: Release, order: Option<nat>, evidence: Option<Provenance>)
      returns (outcome: Result<bool, Reason>)
      modifies this
      ensures match InsertVersion(old(tables), id, r, order, evidence)
              case Err(e) => outcome == Err(e) && tables == old(tables) && log == old(log)
              case Ok((more, inserted)) =>
                outcome == Ok(inserted) && tables == ApplyAll(old(tables), more) && log == old(log) + more
    {
      hide ReleaseStructure, ValidSingle, NextOrder, HistoricalProvenance, InsertWrite, Apply, ApplyAll;
      ApplyAllNone(tables);
      if id !in tables.modules { return Err(MissingModule); }
      if !ValidSingle(id, r) { return Err(InvalidDocument); }
      var promoted := evidence.Some?;
      var e := if promoted then evidence.value else HistoricalProvenance(tables.modules[id], r);
      var found := FindRow(tables.versions, id, r.version);
      if found.Some? {
        var previous := found.value;
        if order.Some? && previous.order != order.value { return Err(OrderConflict); }
        if ReleaseStructure(tables, previous) != r || previous.promoted != promoted { return Err(ImmutableConflict); }
        if previous.provenance != e { return Err(ProvenanceConflict); }
        return Ok(false);
      }
      var n := if order.Some? then order.value else NextOrder(tables, id);
      var known := AllRegistered(r.requiresModules.Keys);
      if !known { return Err(MissingDependency); }
      ghost var before, ensured := tables, EnsureArtifactLog(tables, r.sha256);
      var _ := EnsureArtifact(r.sha256);
      Flush(InsertWrite(id, r, n, promoted, e));
      ApplyAllAppend(before, ensured, InsertWrite(id, r, n, promoted, e));
      return Ok(true);
    }

    method ReleasesByModule(ids: set<string>) returns (releases: map<string, seq<Release>>)
      ensures releases == Grouped(tables, ids, Sort(tables.versions, ModuleThenOrder))
    {
      var db := tables;
      releases := map id | id in ids :: [];
      var rows := Sort(tables.versions, ModuleThenOrder);
      for i := 0 to |rows|
        invariant releases == Grouped(db, ids, rows[..i])
      {
        var row := rows[i];
        GroupedAppend(db, ids, rows[..i], row);
        assert rows[..i + 1] == rows[..i] + [row];
        if row.moduleId in ids {
          releases := releases[row.moduleId := releases[row.moduleId] + [ReleaseStructure(db, row)]];
        }
      }
      assert rows[..|rows|] == rows;
    }

    method ReadProjection() returns (projection: map<string, ModuleDoc>)
      ensures projection == ProjectV1(tables)
    {
      hide Grouped, StructureOf, Project;
      var ids := set id | id in tables.modules && id in PublishedIds(tables);
      var releases := ReleasesByModule(ids);
      GroupedIsProjection(tables, ids);
      projection := map id | id in ids :: StructureOf(tables, id, releases[id]);
    }

    method ReadChannelTargets() returns (targets: map<string, map<Channel, Target>>)
      ensures targets == ChannelTargets(tables)
    {
      var db := tables;
      targets := map[];
      var rest := tables.channels.Keys;
      while rest != {}
        invariant rest <= tables.channels.Keys
        invariant targets == TargetsAmong(db, tables.channels.Keys - rest)
      {
        var key :| key in rest;
        var (id, c) := key;
        var row := FindRow(db.versions, id, db.channels[key].version);
        if row.Some? {
          var target := Target(db.channels[key].version, row.value.digest);
          targets := targets[id := (if id in targets then targets[id] else map[])[c := target]];
        }
        TargetsAmongGrow(db, tables.channels.Keys - rest, id, c);
        assert tables.channels.Keys - (rest - {key}) == (tables.channels.Keys - rest) + {(id, c)};
        rest := rest - {key};
      }
      TargetsAmongAll(db);
      assert tables.channels.Keys - rest == tables.channels.Keys;
    }
  }

  // ----- What the read-back loops have gathered so far -----

  ghost function Grouped(db: Db, ids: set<string>, rows: seq<VersionRow>): map<string, seq<Release>> {
    map id | id in ids :: Structures(db, Filter(rows, OfModule(id)))
  }

  lemma GroupedIsProjection(db: Db, ids: set<string>)
    ensures var g := Grouped(db, ids, Sort(db.versions, ModuleThenOrder));
            g.Keys == ids && forall id | id in ids :: g[id] == Project(db, id)
  {
    forall id | id in ids
      ensures Grouped(db, ids, Sort(db.versions, ModuleThenOrder))[id] == Project(db, id)
    {
      FilterSorted(db.versions, id);
    }
  }

  lemma GroupAppend(db: Db, id: string, rows: seq<VersionRow>, row: VersionRow)
    ensures Structures(db, Filter(rows + [row], OfModule(id))) ==
            if id == row.moduleId then Structures(db, Filter(rows, OfModule(id))) + [ReleaseStructure(db, row)]
            else Structures(db, Filter(rows, OfModule(id)))
  {
    FilterAppend(rows, [row], OfModule(id));
    var f := Filter(rows, OfModule(id));
    if id == row.moduleId {
      FilterAll([row], OfModule(id));
    } else {
      FilterNone([row], OfModule(id));
      assert f + [] == f;
    }
  }

  lemma GroupedAppend(db: Db, ids: set<string>, rows: seq<VersionRow>, row: VersionRow)
    ensures Grouped(db, ids, rows + [row]) ==
            if row.moduleId in ids then
              Grouped(db, ids, rows)[row.moduleId := Grouped(db, ids, rows)[row.moduleId] + [ReleaseStructure(db, row)]]
            else Grouped(db, ids, rows)
  {
    forall id | id in ids
      ensures Grouped(db, ids, rows + [row])[id] ==
              if id == row.moduleId then Grouped(db, ids, rows)[id] + [ReleaseStructure(db, row)]
              else Grouped(db, ids, rows)[id]
    {
      GroupAppend(db, id, rows, row);
    }
  }

  ghost function IdsAmong(db: Db, keys: set<(string, Channel)>): set<string> {
    set k | k in keys && k.1 in ChannelMap(db, k.0) :: k.0
  }

  ghost function MapAmong(db: Db, id: string, keys: set<(string, Channel)>): map<Channel, Target> {
    map c: Channel | (id, c) in keys && c in ChannelMap(db, id) :: ChannelMap(db, id)[c]
  }

  ghost function TargetsAmong(db: Db, keys: set<(string, Channel)>): map<string, map<Channel, Target>> {
    map id | id in IdsAmong(db, keys) :: MapAmong(db, id, keys)
  }

  lemma IdsAmongGrow(db: Db, keys: set<(string, Channel)>, id: string, c: Channel)
    ensures IdsAmong(db, keys + {(id, c)}) == IdsAmong(db, keys) + if c in ChannelMap(db, id) then {id} else {}
  {
    var more := keys + {(id, c)};
    if c in ChannelMap(db, id) {
      var key := (id, c);
      assert key in more && key.1 in ChannelMap(db, key.0);
    }
  }

  lemma MapAmongGrow(db: Db, keys: set<(string, Channel)>, id: string, c: Channel, x: string)
    ensures MapAmong(db, x, keys + {(id, c)}) ==
            if x == id && c in ChannelMap(db, id) then MapAmong(db, x, keys)[c := ChannelMap(db, id)[c]]
            else MapAmong(db, x, keys)
  {}

  lemma MapAmongNone(db: Db, keys: set<(string, Channel)>, x: string)
    requires x !in IdsAmong(db, keys)
    ensures MapAmong(db, x, keys) == map[]
  {
    forall c: Channel ensures c !in MapAmong(db, x, keys) {
      var key := (x, c);
      assert key.0 == x && key.1 == c;
    }
  }

  lemma TargetsAmongGrow(db: Db, keys: set<(string, Channel)>, id: string, c: Channel)
    ensures var t := TargetsAmong(db, keys);
            TargetsAmong(db, keys + {(id, c)}) ==
            if c in ChannelMap(db, id)
            then t[id := (if id in t then t[id] else map[])[c := ChannelMap(db, id)[c]]] else t
  {
    hide ChannelMap, MapAmong, IdsAmong;
    var more := keys + {(id, c)};
    IdsAmongGrow(db, keys, id, c);
    if id !in IdsAmong(db, keys) { MapAmongNone(db, keys, id); }
    forall x | x in IdsAmong(db, more)
      ensures MapAmong(db, x, more) ==
              if x == id && c in ChannelMap(db, id) then MapAmong(db, x, keys)[c := ChannelMap(db, id)[c]]
              else MapAmong(db, x, keys)
    {
      MapAmongGrow(db, keys, id, c, x);
    }
  }

  lemma TargetsAmongAll(db: Db)
    ensures TargetsAmong(db, db.channels.Keys) == ChannelTargets(db)
  {
    forall id ensures MapAmong(db, id, db.channels.Keys) == ChannelMap(db, id) {}
    assert IdsAmong(db, db.channels.Keys) == PointedIds(db);
  }
}

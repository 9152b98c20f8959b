/**
 The guard that runs before every flush of the object mapper. It accepts a flush exactly when
 published history comes out of it unharmed.
 */
module HistoryGuard {
  datatype Table = Publishers | Modules | Artifacts | Provenance | Versions | Channels | Dependencies | Events

  /** A row is named by its table and its primary key. */
  datatype Name = Name(table: Table, key: string)

  type Row = map<string, string>
  type Rows = map<Name, Row>

  /** The session's pending work: objects to delete, dirty objects with their current values, new objects. */
  datatype Pending = Pending(deleted: set<Name>, dirty: Rows, added: Rows)

  const IMMUTABLE := {Versions, Dependencies, Provenance, Events}

  predicate PendingFor(rows: Rows, p: Pending) {
    && p.deleted <= rows.Keys && p.dirty.Keys <= rows.Keys && p.deleted !! p.dirty.Keys
    && p.added.Keys !! rows.Keys
    && forall n | n in p.dirty :: p.dirty[n].Keys == rows[n].Keys
  }

  function Flushed(rows: Rows, p: Pending): Rows { (rows - p.deleted) + p.dirty + p.added }

  function ProtectedColumns(t: Table): set<string> {
    match t
    case Artifacts => {"id", "digest_algorithm", "digest", "created_at"}
    case Modules => {"id", "publisher_id", "classification", "license", "source_repository"}
    case Publishers => {"id"}
    case _ => {}
  }

  /** No immutable row or artifact goes, no immutable row changes, identities keep their columns. */
  predicate Kept(rows: Rows, after: Rows, n: Name)
    requires n in rows
  {
    && (n.table in IMMUTABLE || n.table == Artifacts ==> n in after)
    && (n in after && n.table in IMMUTABLE ==> after[n] == rows[n])
    && (n in after ==> SameColumns(rows[n], after[n], ProtectedColumns(n.table)))
  }

  predicate SameColumns(a: Row, b: Row, columns: set<string>) {
    forall c | c in columns && c in a :: c in b && a[c] == b[c]
  }

  predicate HistoryKept(rows: Rows, after: Rows) { forall n | n in rows :: Kept(rows, after, n) }

  function Changed(before: Row, now: Row): set<string> {
    set c | c in before && (c !in now || now[c] != before[c])
  }

  /**
   What survives, table by table: versions, dependencies, provenance and events whole, artifacts
   with their digest, modules and publishers, as long as they exist, with their identity.
   */
  ghost predicate Survives(rows: Rows, after: Rows, n: Name)
    requires n in rows
  {
    match n.table
    case Versions => n in after && after[n] == rows[n]
    case Dependencies => n in after && after[n] == rows[n]
    case Provenance => n in after && after[n] == rows[n]
    case Events => n in after && after[n] == rows[n]
    case Artifacts =>
      && n in after && Same(rows, after, n, "id") && Same(rows, after, n, "digest_algorithm")
      && Same(rows, after, n, "digest") && Same(rows, after, n, "created_at")
    case Modules =>
      n in after ==>
        && Same(rows, after, n, "id") && Same(rows, after, n, "publisher_id") && Same(rows, after, n, "classification")
        && Same(rows, after, n, "license") && Same(rows, after, n, "source_repository")
    case Publishers => n in after ==> Same(rows, after, n, "id")
    case Channels => true
  }

  /** A column that had a value still has it. */
  ghost predicate Same(rows: Rows, after: Rows, n: Name, column: string)
    requires n in rows && n in after
  {
    column in rows[n] ==> column in after[n] && after[n][column] == rows[n][column]
  }

  lemma KeptExactly(rows: Rows, after: Rows, n: Name)
    requires n in rows
    ensures Kept(rows, after, n) <==> Survives(rows, after, n)
  {
    if n in after {
      match n.table
      case Artifacts =>
        assert {"id", "digest_algorithm", "digest", "created_at"} == ProtectedColumns(n.table);
        assert "id" in ProtectedColumns(n.table) && "digest_algorithm" in ProtectedColumns(n.table);
        assert "digest" in ProtectedColumns(n.table) && "created_at" in ProtectedColumns(n.table);
      case Modules =>
        assert "id" in ProtectedColumns(n.table) && "publisher_id" in ProtectedColumns(n.table);
        assert "classification" in ProtectedColumns(n.table) && "license" in ProtectedColumns(n.table);
        assert "source_repository" in ProtectedColumns(n.table);
      case Publishers => assert "id" in ProtectedColumns(n.table);
      case _ =>
    }
  }

  /** A flush is history-preserving if and only if every row survives it in its table's way. */
  lemma HistoryKeptExactly(rows: Rows, after: Rows)
    ensures HistoryKept(rows, after) <==> forall n | n in rows :: Survives(rows, after, n)
  {
    hide Kept, Survives;
    forall n | n in rows ensures Kept(rows, after, n) <==> Survives(rows, after, n) { KeptExactly(rows, after, n); }
  }

  method ProtectHistory(rows: Rows, p: Pending) returns (ok: bool)
    requires PendingFor(rows, p)
    ensures ok <==> HistoryKept(rows, Flushed(rows, p))
    ensures ok <==> forall n | n in rows :: Survives(rows, Flushed(rows, p), n)
  {
    hide Survives;
    ghost var after := Flushed(rows, p);
    HistoryKeptExactly(rows, after);
    var rest := p.deleted;
    while rest != {}
      invariant rest <= p.deleted
      invariant forall n | n in p.deleted - rest :: Kept(rows, after, n)
    {
      var n :| n in rest;
      if n.table in IMMUTABLE + {Artifacts} {
        assert !Kept(rows, after, n);
        return false;
      }
      rest := rest - {n};
    }
    rest := p.dirty.Keys;
    while rest != {}
      invariant rest <= p.dirty.Keys
      invariant forall n | n in p.dirty && n !in rest :: Kept(rows, after, n)
    {
      var n :| n in rest;
      var changed := Changed(rows[n], p.dirty[n]);
      DirtyKept(rows, p, n);
      if n.table in IMMUTABLE && changed != {} { return false; }
      if changed * ProtectedColumns(n.table) != {} { return false; }
      rest := rest - {n};
    }
    forall n | n in rows ensures Kept(rows, after, n) {
      if n !in p.deleted && n !in p.dirty { assert after[n] == rows[n]; }
    }
    return true;
  }

  lemma DirtyKept(rows: Rows, p: Pending, n: Name)
    requires PendingFor(rows, p) && n in p.dirty
    ensures Kept(rows, Flushed(rows, p), n) <==>
            !(n.table in IMMUTABLE && Changed(rows[n], p.dirty[n]) != {})
            && Changed(rows[n], p.dirty[n]) * ProtectedColumns(n.table) == {}
  {
    var before, now := rows[n], p.dirty[n];
    assert Changed(before, now) == {} <==> before == now by {
      if Changed(before, now) == {} {
        forall c | c in before ensures now[c] == before[c] { assert c !in Changed(before, now); }
      }
    }
    var columns := ProtectedColumns(n.table);
    assert Changed(before, now) * columns == {} <==> SameColumns(before, now, columns) by {
      if Changed(before, now) * columns == {} {
        forall c | c in columns && c in before ensures now[c] == before[c] {
          assert c !in Changed(before, now) * columns;
        }
      }
    }
  }

  // ----- Any number of guarded flushes -----

  ghost predicate GuardedFlushes(states: seq<Rows>, work: seq<Pending>) {
    && |states| == |work| + 1
    && forall i | 0 <= i < |work| ::
         PendingFor(states[i], work[i]) && states[i + 1] == Flushed(states[i], work[i])
           && HistoryKept(states[i], states[i + 1])
  }

  /** A published row stays as it is, and an artifact keeps its digest. */
  ghost predicate Stays(a: Rows, b: Rows, n: Name) {
    && (n in a && n.table in IMMUTABLE ==> n in b && b[n] == a[n])
    && (n in a && n.table == Artifacts && "digest" in a[n] ==>
      n in b && "digest" in b[n] && b[n]["digest"] == a[n]["digest"])
  }

  lemma FlushStays(a: Rows, b: Rows, n: Name)
    requires HistoryKept(a, b)
    ensures Stays(a, b, n)
  {
    if n in a { assert Kept(a, b, n); }
  }

  lemma {:induction false} PublishedHistoryStays(states: seq<Rows>, work: seq<Pending>, i: nat, j: nat, n: Name)
    requires GuardedFlushes(states, work) && i <= j < |states|
    ensures Stays(states[i], states[j], n)
    decreases j - i
  {
    hide HistoryKept, Flushed, PendingFor;
    if i < j {
      PublishedHistoryStays(states, work, i, j - 1, n);
      assert states[j - 1 + 1] == Flushed(states[j - 1], work[j - 1]) && HistoryKept(states[j - 1], states[j - 1 + 1]);
      FlushStays(states[j - 1], states[j], n);
      StaysTransitive(states[i], states[j - 1], states[j], n);
    }
  }

  lemma StaysTransitive(a: Rows, b: Rows, c: Rows, n: Name)
    requires Stays(a, b, n) && Stays(b, c, n)
    ensures Stays(a, c, n)
  {}
}

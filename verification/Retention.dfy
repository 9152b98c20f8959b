/** Release retention: which releases a prune deletes, which survive, and that it is idempotent. */
module Retention {
  import opened StableSort
  import opened Text
  import opened Wrappers

  /** A release directory: its modification time, and whether the checks before a deletion accept it. */
  datatype Release = Release(name: string, modified: int, safe: bool, ready: bool, mounted: bool)

  datatype Refused = UnsafeRequest | UnsafePointer | UnclassifiedRelease | MountedDirectory | BecameProtected

  ghost predicate Unique(rs: seq<Release>) { forall i, j | 0 <= i < j < |rs| :: rs[i].name != rs[j].name }

  /** Newest first; of two with the same time the smaller name first. */
  predicate Sooner(a: Release, b: Release) {
    a.modified > b.modified || (a.modified == b.modified && TextLess(a.name, b.name))
  }

  function Named(rs: seq<Release>, name: string): (r: Option<Release>)
    ensures r.Some? ==> r.value in rs && r.value.name == name
    ensures r.None? ==> forall x | x in rs :: x.name != name
  {
    if rs == [] then None else if rs[0].name == name then Some(rs[0]) else Named(rs[1..], name)
  }

  predicate PointsAtRelease(rs: seq<Release>, name: string) { Named(rs, name).Some? && Named(rs, name).value.safe }

  function Outside(names: set<string>): Release -> bool { (r: Release) => r.name !in names }

  predicate Classified(r: Release) { r.safe && r.ready }

  /** The unprotected releases beyond the retained number. */
  function Excess(rs: seq<Release>, guarded: set<string>, retention: nat): seq<Release> {
    var others := Sort(Filter(rs, Outside(guarded)), Sooner);
    if retention < |guarded| then others
    else if retention - |guarded| > |others| then []
    else others[retention - |guarded|..]
  }

  /** select_releases */
  function Selection(rs: seq<Release>, current: string, previous: string, retention: nat): Result<seq<Release>,
      Refused> {
    if retention < 2 then Err(UnsafeRequest)
    else if !PointsAtRelease(rs, current) || !PointsAtRelease(rs, previous) then Err(UnsafePointer)
    else if exists r :: r in rs && !Classified(r) then Err(UnclassifiedRelease)
    else Ok(Excess(rs, {current, previous}, retention))
  }

  function Names(rs: seq<Release>): set<string> { set r | r in rs :: r.name }

  /** What is left when these have been deleted. */
  function Left(rs: seq<Release>, gone: seq<Release>): seq<Release> { Filter(rs, Outside(Names(gone))) }

  class ReleaseRoot {
    var entries: seq<Release>
    var current: string
    var previous: string

    constructor (rs: seq<Release>, c: string, p: string)
      ensures entries == rs && current == c && previous == p
    {
      entries, current, previous := rs, c, p;
    }

    method ProtectedPaths() returns (r: Result<set<string>, Refused>)
      ensures r == if PointsAtRelease(entries, current) && PointsAtRelease(entries, previous)
                   then Ok({current, previous}) else Err(UnsafePointer)
    {
      var guarded: set<string> := {};
      var links := [current, previous];
      for i := 0 to 2
        invariant guarded == set k | 0 <= k < i :: links[k]
        invariant forall k | 0 <= k < i :: PointsAtRelease(entries, links[k])
      {
        if !PointsAtRelease(entries, links[i]) { return Err(UnsafePointer); }
        guarded := guarded + {links[i]};
      }
      assert guarded == {links[0], links[1]};
      return Ok(guarded);
    }

    /** The unprotected entries, once every entry has been classified. */
    method Unprotected(guarded: set<string>) returns (r: Result<seq<Release>, Refused>)
      ensures r == if exists x :: x in entries && !Classified(x) then Err(UnclassifiedRelease)
                   else Ok(Filter(entries, Outside(guarded)))
    {
      hide Classified;
      var releases: seq<Release> := [];
      for i := 0 to |entries|
        invariant releases == Filter(entries[..i], Outside(guarded))
        invariant forall k | 0 <= k < i :: Classified(entries[k])
      {
        if !Classified(entries[i]) {
          assert entries[i] in entries;
          return Err(UnclassifiedRelease);
        }
        OneMore(entries[..i], entries[i], guarded);
        assert entries[..i + 1] == entries[..i] + [entries[i]];
        if entries[i].name !in guarded { releases := releases + [entries[i]]; }
      }
      assert entries[..|entries|] == entries;
      return Ok(releases);
    }

    method SelectReleases(retention: nat) returns (r: Result<seq<Release>, Refused>)
      ensures r == Selection(entries, current, previous, retention)
    {
      hide Classified, PointsAtRelease, Sooner;
      if retention < 2 { return Err(UnsafeRequest); }
      var guarded := ProtectedPaths();
      if guarded.Err? { return Err(guarded.error); }
      var found := Unprotected(guarded.value);
      if found.Err? { return found; }
      var releases := Sort(found.value, Sooner);
      var keep := if retention < |guarded.value| then 0 else retention - |guarded.value|;
      return Ok(if keep > |releases| then [] else releases[keep..]);
    }

    /** Mounts are looked for in every selected release before any is deleted. */
    method AnyMounted(paths: seq<Release>) returns (mounted: bool)
      ensures mounted <==> exists x :: x in paths && x.mounted
    {
      for i := 0 to |paths|
        invariant forall k | 0 <= k < i :: !paths[k].mounted
      {
        if paths[i].mounted {
          assert paths[i] in paths;
          return true;
        }
      }
      return false;
    }

    method DeleteAll(paths: seq<Release>, pointersAt: nat -> (string, string))
      returns (r: Result<seq<Release>, Refused>, deleted: seq<Release>)
      requires Unique(entries) && Unique(paths) && PointsAtRelease(entries, current)
               && PointsAtRelease(entries, previous)
      requires forall x | x in paths :: x in entries && x.name != current && x.name != previous
      modifies this`entries
      ensures entries == Left(old(entries), deleted) && deleted <= paths
      ensures forall k: nat | k < |deleted| :: deleted[k].name != pointersAt(k).0 && deleted[k].name != pointersAt(k).1
      ensures r.Ok? ==> r.value == deleted == paths
      ensures (forall k: nat :: pointersAt(k) == (current, previous)) ==> r == Ok(paths)
    {
      hide PointsAtRelease, Left, Unique;
      deleted := [];
      ghost var before := entries;
      NothingGone(before);
      for i := 0 to |paths|
        invariant deleted == paths[..i] && entries == Left(before, deleted)
        invariant forall k: nat | k < i :: paths[k].name != pointersAt(k).0 && paths[k].name != pointersAt(k).1
      {
        var (c, p) := pointersAt(i);
        PointersStay(before, paths, i, current);
        PointersStay(before, paths, i, previous);
        if !PointsAtRelease(entries, c) || !PointsAtRelease(entries, p) { return Err(UnsafePointer), deleted; }
        if paths[i].name == c || paths[i].name == p { return Err(BecameProtected), deleted; }
        LeftMore(before, deleted, paths[i]);
        entries := Filter(entries, Outside({paths[i].name}));
        deleted := deleted + [paths[i]];
        assert paths[..i + 1] == paths[..i] + [paths[i]];
      }
      assert paths[..|paths|] == paths;
      return Ok(paths), deleted;
    }

    /**
     The pointers are read again before each deletion: pointersAt(k) is what the k-th reading
     finds. A release that is protected then stops the prune.
     */
    method Prune(retention: nat, pointersAt: nat -> (string, string))
      returns (r: Result<seq<Release>, Refused>, deleted: seq<Release>)
      requires Unique(entries)
      modifies this`entries
      ensures entries == Left(old(entries), deleted)
      ensures forall k: nat | k < |deleted| :: deleted[k].name != pointersAt(k).0 && deleted[k].name != pointersAt(k).1
      ensures match Selection(old(entries), current, previous, retention)
              case Err(e) => r == Err(e) && deleted == []
              case Ok(selected) =>
                if exists x :: x in selected && x.mounted then r == Err(MountedDirectory) && deleted == []
                else
                  && deleted <= selected && (r.Ok? ==> r.value == deleted == selected)
                  && ((forall k: nat :: pointersAt(k) == (current, previous)) ==> r == Ok(selected))
    {
      hide Left, PointsAtRelease, Unique;
      deleted := [];
      NothingGone(entries);
      var selected := SelectReleases(retention);
      if selected.Err? { return Err(selected.error), []; }
      var mounted := AnyMounted(selected.value);
      if mounted { return Err(MountedDirectory), []; }
      SelectedFacts(entries, current, previous, retention);
      r, deleted := DeleteAll(selected.value, pointersAt);
    }
  }

  // ----- Lemmas of the loop -----

  lemma {:induction false} FilterTwice(rs: seq<Release>, a: set<string>, b: set<string>)
    ensures Filter(Filter(rs, Outside(a)), Outside(b)) == Filter(rs, Outside(a + b))
  {
    if rs != [] {
      FilterTwice(rs[1..], a, b);
      if Outside(a)(rs[0]) { assert Filter(rs, Outside(a))[1..] == Filter(rs[1..], Outside(a)); }
    }
  }

  lemma OneMore(rs: seq<Release>, x: Release, guarded: set<string>)
    ensures Filter(rs + [x], Outside(guarded)) == Filter(rs, Outside(guarded)) + if x.name in guarded then [] else [x]
  {
    FilterAppend(rs, [x], Outside(guarded));
    if x.name in guarded { FilterNone([x], Outside(guarded)); } else { FilterAll([x], Outside(guarded)); }
  }

  lemma NothingGone(rs: seq<Release>)
    ensures Left(rs, []) == rs
  {
    FilterAll(rs, Outside(Names([])));
  }

  lemma LeftMore(rs: seq<Release>, gone: seq<Release>, x: Release)
    ensures Filter(Left(rs, gone), Outside({x.name})) == Left(rs, gone + [x])
  {
    FilterTwice(rs, Names(gone), {x.name});
    assert Names(gone + [x]) == Names(gone) + {x.name};
  }

  lemma SoonerIsWeakOrder()
    ensures WeakOrder(Sooner)
  {
    forall x: Release, y: Release, z: Release
      ensures !(Sooner(x, y) && Sooner(y, x))
      ensures Sooner(x, y) && Sooner(y, z) ==> Sooner(x, z)
      ensures !Sooner(x, y) && !Sooner(y, z) ==> !Sooner(x, z)
    {
      TextOrder(x.name, y.name, z.name);
      TextOrder(z.name, y.name, x.name);
      TextOrder(x.name, z.name, y.name);
    }
  }

  lemma SortedMembers(rs: seq<Release>)
    ensures forall x :: x in Sort(rs, Sooner) <==> x in rs
  {
    SoonerIsWeakOrder();
    SortSorts(rs, Sooner);
    forall x ensures x in Sort(rs, Sooner) <==> x in rs {
      assert x in multiset(Sort(rs, Sooner)) <==> x in multiset(rs);
    }
  }

  lemma {:induction false} FilterUnique(rs: seq<Release>, keep: Release -> bool)
    requires Unique(rs)
    ensures Unique(Filter(rs, keep))
  {
    if rs != [] {
      FilterUnique(rs[1..], keep);
      assert forall i | 0 < i < |rs| :: rs[i].name != rs[0].name;
      assert forall x | x in Filter(rs[1..], keep) :: x in rs[1..] && x.name != rs[0].name;
    }
  }

  lemma {:induction false} InsertUnique(x: Release, rs: seq<Release>)
    requires Unique(rs) && forall y | y in rs :: y.name != x.name
    ensures Unique(Insert(x, rs, Sooner))
    ensures forall y :: y in Insert(x, rs, Sooner) <==> y == x || y in rs
  {
    if rs != [] && Sooner(rs[0], x) {
      InsertUnique(x, rs[1..]);
      assert rs == [rs[0]] + rs[1..];
      var t := Insert(x, rs[1..], Sooner);
      forall j | 0 <= j < |t| ensures t[j].name != rs[0].name {
        assert t[j] in t;
        assert forall i | 0 < i < |rs| :: rs[i].name != rs[0].name;
      }
    }
  }

  lemma {:induction false} SortUnique(rs: seq<Release>)
    requires Unique(rs)
    ensures Unique(Sort(rs, Sooner))
  {
    if rs != [] {
      SortUnique(rs[1..]);
      SortedMembers(rs[1..]);
      assert forall i | 0 < i < |rs| :: rs[i].name != rs[0].name;
      assert forall y | y in rs[1..] :: y.name != rs[0].name;
      InsertUnique(rs[0], Sort(rs[1..], Sooner));
    }
  }

  /**
   When and why a selection is refused: a retention below two, a pointer that does not name a
   safe release, or any entry that is unsafe or without its ready marker. Otherwise the
   selection is made of unprotected entries.
   */
  lemma SelectionExactly(rs: seq<Release>, current: string, previous: string, retention: nat)
    requires Unique(rs)
    ensures var r := Selection(rs, current, previous, retention);
            var pointed := (exists x :: x in rs && x.name == current && x.safe)
                           && (exists x :: x in rs && x.name == previous && x.safe);
            var clean := forall x | x in rs :: x.safe && x.ready;
            && (retention < 2 ==> r == Err(UnsafeRequest))
            && (retention >= 2 && !pointed ==> r == Err(UnsafePointer))
            && (retention >= 2 && pointed && !clean ==> r == Err(UnclassifiedRelease))
            && (retention >= 2 && pointed && clean ==>
                  && r.Ok? && Unique(r.value)
                  && (forall x | x in r.value :: x in rs && x.name != current && x.name != previous))
  {
    hide Excess, Unique;
    PointerExactly(rs, current);
    PointerExactly(rs, previous);
    assert (exists x :: x in rs && !Classified(x)) <==> !(forall x | x in rs :: x.safe && x.ready) by {
      if x :| x in rs && !(x.safe && x.ready) { assert !Classified(x); }
    }
    if Selection(rs, current, previous, retention).Ok? { SelectedFacts(rs, current, previous, retention); }
  }

  lemma PointerExactly(rs: seq<Release>, name: string)
    requires Unique(rs)
    ensures PointsAtRelease(rs, name) <==> exists x :: x in rs && x.name == name && x.safe
  {
    if x :| x in rs && x.name == name && x.safe {
      var y := Named(rs, name).value;
      var i :| 0 <= i < |rs| && rs[i] == x;
      var k :| 0 <= k < |rs| && rs[k] == y;
    }
  }

  /** Selected releases are entries, distinct, and not protected. */
  lemma SelectedFacts(rs: seq<Release>, current: string, previous: string, retention: nat)
    requires Unique(rs) && Selection(rs, current, previous, retention).Ok?
    ensures var s := Selection(rs, current, previous, retention).value;
            Unique(s) && forall x | x in s :: x in rs && x.name != current && x.name != previous
  {
    var others := Filter(rs, Outside({current, previous}));
    FilterUnique(rs, Outside({current, previous}));
    SortUnique(others);
    SortedMembers(others);
  }

  lemma PointersStay(rs: seq<Release>, paths: seq<Release>, i: nat, pointer: string)
    requires Unique(rs) && i <= |paths| && PointsAtRelease(rs, pointer) && forall x | x in paths :: x.name != pointer
    ensures PointsAtRelease(Left(rs, paths[..i]), pointer)
  {
    var r := Named(rs, pointer).value;
    var rest := Left(rs, paths[..i]);
    assert r in rest;
    var found := Named(rest, pointer).value;
    assert found in rs;
    var a :| 0 <= a < |rs| && rs[a] == r;
    var b :| 0 <= b < |rs| && rs[b] == found;
    assert a == b;
  }

  // ----- What survives -----

  lemma {:induction false} FilterPartition(rs: seq<Release>, names: set<string>)
    requires Unique(rs) && names <= Names(rs)
    ensures |Filter(rs, Outside(names))| == |rs| - |names|
    decreases |rs|
  {
    if rs == [] {
      assert names == {};
    } else {
      var rest := names - {rs[0].name};
      assert rs == [rs[0]] + rs[1..];
      assert forall i | 0 < i < |rs| :: rs[i].name != rs[0].name;
      assert rest <= Names(rs[1..]) by {
        forall n | n in rest ensures n in Names(rs[1..]) {
          var x :| x in rs && x.name == n;
          assert x in rs[1..];
        }
      }
      FilterPartition(rs[1..], rest);
      FilterIgnores(rs[1..], names, rs[0].name);
    }
  }

  lemma {:induction false} FilterIgnores(rs: seq<Release>, names: set<string>, n: string)
    requires forall x | x in rs :: x.name != n
    ensures Filter(rs, Outside(names)) == Filter(rs, Outside(names - {n}))
  {
    if rs != [] { FilterIgnores(rs[1..], names, n); }
  }

  lemma {:induction false} NamesSize(rs: seq<Release>)
    requires Unique(rs)
    ensures |Names(rs)| == |rs|
  {
    if rs != [] {
      NamesSize(rs[1..]);
      assert forall i | 0 < i < |rs| :: rs[i].name != rs[0].name;
      assert Names(rs) == {rs[0].name} + Names(rs[1..]);
    }
  }

  /** A completed prune leaves exactly the smaller of the total and the retention. */
  lemma SurvivorCount(rs: seq<Release>, current: string, previous: string, retention: nat)
    requires Unique(rs) && Selection(rs, current, previous, retention).Ok?
    ensures |Left(rs, Selection(rs, current, previous, retention).value)| ==
            if |rs| < retention then |rs| else retention
  {
    var selected := Selection(rs, current, previous, retention).value;
    var guarded := {current, previous};
    SelectedFacts(rs, current, previous, retention);
    assert guarded <= Names(rs) by { assert Named(rs, current).value in rs && Named(rs, previous).value in rs; }
    FilterPartition(rs, guarded);
    NamesSize(selected);
    assert Names(selected) <= Names(rs);
    FilterPartition(rs, Names(selected));
    NamesSize(rs);
    assert |guarded| <= 2;
  }

  lemma ProtectedSurvive(rs: seq<Release>, current: string, previous: string, retention: nat)
    requires Unique(rs) && Selection(rs, current, previous, retention).Ok?
    ensures var left := Left(rs, Selection(rs, current, previous, retention).value);
            PointsAtRelease(left, current) && PointsAtRelease(left, previous)
  {
    hide Excess, PointsAtRelease, Left, Unique;
    var selected := Selection(rs, current, previous, retention).value;
    SelectedFacts(rs, current, previous, retention);
    assert selected[..|selected|] == selected;
    PointersStay(rs, selected, |selected|, current);
    PointersStay(rs, selected, |selected|, previous);
  }

  lemma SortedOthers(rs: seq<Release>, guarded: set<string>)
    requires Unique(rs)
    ensures var sorted := Sort(Filter(rs, Outside(guarded)), Sooner);
            Unique(sorted) && Ascending(sorted, Sooner) && forall x :: x in sorted <==> x in rs && x.name !in guarded
  {
    var others := Filter(rs, Outside(guarded));
    SoonerIsWeakOrder();
    SortSorts(others, Sooner);
    SortedMembers(others);
    FilterUnique(rs, Outside(guarded));
    SortUnique(others);
  }

  lemma ExcessIsTail(rs: seq<Release>, guarded: set<string>, retention: nat)
    ensures var sorted, s := Sort(Filter(rs, Outside(guarded)), Sooner), Excess(rs, guarded, retention);
            |s| <= |sorted| && s == sorted[|sorted| - |s|..]
  {}

  /** An unprotected survivor is newer than anything deleted, or as new and of the smaller name. */
  lemma SurvivorsAreNewest(rs: seq<Release>, current: string, previous: string, retention: nat, d: Release, x: Release)
    requires Unique(rs) && Selection(rs, current, previous, retention).Ok?
    requires d in Selection(rs, current, previous, retention).value
    requires x in Left(rs, Selection(rs, current, previous, retention).value) && x.name !in {current, previous}
    ensures d.modified < x.modified || (d.modified == x.modified && TextLess(x.name, d.name))
  {
    hide Excess, PointsAtRelease, Unique, Sooner, Names, Sort, Ascending;
    var guarded := {current, previous};
    SortedOthers(rs, guarded);
    ExcessIsTail(rs, guarded, retention);
    TailIsOlder(Sort(Filter(rs, Outside(guarded)), Sooner), Selection(rs, current, previous, retention).value, d, x);
  }

  lemma TailIsOlder(sorted: seq<Release>, selected: seq<Release>, d: Release, x: Release)
    requires Unique(sorted) && Ascending(sorted, Sooner) && |selected| <= |sorted|
             && selected == sorted[|sorted| - |selected|..]
    requires x in sorted && x.name !in Names(selected) && d in selected
    ensures d.modified < x.modified || (d.modified == x.modified && TextLess(x.name, d.name))
  {
    hide Sooner;
    var i :| 0 <= i < |sorted| && sorted[i] == x;
    var k :| 0 <= k < |selected| && selected[k] == d;
    assert sorted[|sorted| - |selected| + k] == d;
    KeptBeforeDeleted(sorted, selected, i, |sorted| - |selected| + k);
    NamesDecide(x, d);
  }

  lemma KeptBeforeDeleted(sorted: seq<Release>, selected: seq<Release>, i: nat, j: nat)
    requires Unique(sorted) && i < |sorted| && j < |sorted| && |selected| <= |sorted|
    requires selected == sorted[|sorted| - |selected|..] && sorted[j] in selected && sorted[i].name !in Names(selected)
    ensures i < j && sorted[i].name != sorted[j].name
  {
    var k :| 0 <= k < |selected| && selected[k] == sorted[j];
    assert sorted[|sorted| - |selected| + k] == sorted[j];
    assert forall l | |sorted| - |selected| <= l < |sorted| :: sorted[l] == selected[l - (|sorted| - |selected|)];
  }

  lemma NamesDecide(x: Release, d: Release)
    requires !Sooner(d, x) && x.name != d.name
    ensures d.modified < x.modified || (d.modified == x.modified && TextLess(x.name, d.name))
  {
    TextOrder(x.name, d.name, x.name);
  }

  lemma ExcessNone(rs: seq<Release>, guarded: set<string>, retention: nat)
    requires |Filter(rs, Outside(guarded))| + |guarded| <= retention
    ensures Excess(rs, guarded, retention) == []
  {}

  /** A second prune deletes nothing. */
  lemma PruneIsIdempotent(rs: seq<Release>, current: string, previous: string, retention: nat)
    requires Unique(rs) && Selection(rs, current, previous, retention).Ok?
    ensures Selection(Left(rs, Selection(rs, current, previous, retention).value), current, previous, retention) ==
            Ok([])
  {
    hide Excess, PointsAtRelease, Unique, Names;
    var selected := Selection(rs, current, previous, retention).value;
    var left := Left(rs, selected);
    var guarded := {current, previous};
    SurvivorCount(rs, current, previous, retention);
    ProtectedSurvive(rs, current, previous, retention);
    FilterUnique(rs, Outside(Names(selected)));
    PointersAreNames(left, current, previous);
    FilterPartition(left, guarded);
    ExcessNone(left, guarded, retention);
  }

  lemma PointersAreNames(rs: seq<Release>, current: string, previous: string)
    requires PointsAtRelease(rs, current) && PointsAtRelease(rs, previous)
    ensures {current, previous} <= Names(rs)
  {
    assert Named(rs, current).value in rs && Named(rs, previous).value in rs;
  }
}

/**
 Stable sorting and first-maximum selection over a strict weak order, as Python's
 sorted(key=...) and max(key=...) define them.
 */
module StableSort {
  import opened Wrappers

  ghost predicate WeakOrder<T(!new)>(less: (T, T) -> bool) {
    && (forall x, y :: !(less(x, y) && less(y, x)))
    && (forall x, y, z :: less(x, y) && less(y, z) ==> less(x, z))
    && (forall x, y, z :: !less(x, y) && !less(y, z) ==> !less(x, z))
  }

  /** Puts x, which stood before all of s, at its stable place. */
  function Insert<T>(x: T, s: seq<T>, less: (T, T) -> bool): (r: seq<T>)
    ensures |r| == |s| + 1
  {
    if s == [] then [x]
    else if less(s[0], x) then [s[0]] + Insert(x, s[1..], less)
    else [x] + s
  }

  function Sort<T>(s: seq<T>, less: (T, T) -> bool): (r: seq<T>)
    ensures |r| == |s|
  {
    if s == [] then [] else Insert(s[0], Sort(s[1..], less), less)
  }

  ghost predicate Ascending<T>(s: seq<T>, less: (T, T) -> bool) {
    forall i, j | 0 <= i < j < |s| :: !less(s[j], s[i])
  }

  lemma {:induction false} InsertPermutes<T>(x: T, s: seq<T>, less: (T, T) -> bool)
    ensures multiset(Insert(x, s, less)) == multiset(s) + multiset{x}
  {
    if s != [] {
      assert s == [s[0]] + s[1..];
      InsertPermutes(x, s[1..], less);
    }
  }

  lemma InsertMember<T>(x: T, s: seq<T>, less: (T, T) -> bool, k: nat)
    requires k <= |s|
    ensures Insert(x, s, less)[k] == x || Insert(x, s, less)[k] in s
  {
    InsertPermutes(x, s, less);
    assert Insert(x, s, less)[k] in multiset(Insert(x, s, less));
  }

  lemma {:induction false} InsertAscends<T(!new)>(x: T, s: seq<T>, less: (T, T) -> bool)
    requires WeakOrder(less) && Ascending(s, less)
    ensures Ascending(Insert(x, s, less), less)
  {
    if s != [] && less(s[0], x) {
      var t := Insert(x, s[1..], less);
      InsertAscends(x, s[1..], less);
      assert forall j | 0 < j < |s| :: !less(s[j], s[0]);
      forall j | 0 <= j < |t| ensures !less(t[j], s[0]) { InsertMember(x, s[1..], less, j); }
    }
  }

  /** The result is ascending and a permutation. */
  lemma {:induction false} SortSorts<T(!new)>(s: seq<T>, less: (T, T) -> bool)
    requires WeakOrder(less)
    ensures Ascending(Sort(s, less), less)
    ensures multiset(Sort(s, less)) == multiset(s)
  {
    if s != [] {
      assert s == [s[0]] + s[1..];
      SortSorts(s[1..], less);
      InsertAscends(s[0], Sort(s[1..], less), less);
      InsertPermutes(s[0], Sort(s[1..], less), less);
    }
  }

  /** A sequence that already ascends is left as it is, ties included. */
  lemma {:induction false} SortAscending<T>(s: seq<T>, less: (T, T) -> bool)
    requires Ascending(s, less)
    ensures Sort(s, less) == s
  {
    if s != [] {
      assert s == [s[0]] + s[1..];
      SortAscending(s[1..], less);
    }
  }

  lemma {:induction false} InsertBeforeLast<T>(y: T, s: seq<T>, x: T, less: (T, T) -> bool)
    requires !less(x, y)
    ensures Insert(y, s + [x], less) == Insert(y, s, less) + [x]
  {
    if s == [] {
      assert [] + [x] == [x] && [x][1..] == [];
    } else {
      assert (s + [x])[1..] == s[1..] + [x];
      InsertBeforeLast(y, s[1..], x, less);
    }
  }

  /** An element that nothing exceeds, appended last, stays last. */
  lemma {:induction false} SortAppend<T>(s: seq<T>, x: T, less: (T, T) -> bool)
    requires forall y | y in s :: !less(x, y)
    ensures Sort(s + [x], less) == Sort(s, less) + [x]
  {
    if s == [] {
      assert [] + [x] == [x] && [x][1..] == [];
    } else {
      assert (s + [x])[1..] == s[1..] + [x];
      SortAppend(s[1..], x, less);
      InsertBeforeLast(s[0], Sort(s[1..], less), x, less);
    }
  }

  // ----- Selection -----

  function Filter<T(!new)>(s: seq<T>, keep: T -> bool): (r: seq<T>)
    ensures forall x :: x in r <==> x in s && keep(x)
  {
    if s == [] then []
    else if keep(s[0]) then [s[0]] + Filter(s[1..], keep)
    else Filter(s[1..], keep)
  }

  lemma {:induction false} FilterAppend<T(!new)>(s: seq<T>, t: seq<T>, keep: T -> bool)
    ensures Filter(s + t, keep) == Filter(s, keep) + Filter(t, keep)
  {
    if s == [] {
      assert s + t == t;
    } else {
      assert (s + t)[1..] == s[1..] + t;
      FilterAppend(s[1..], t, keep);
    }
  }

  lemma {:induction false} FilterAll<T(!new)>(s: seq<T>, keep: T -> bool)
    requires forall x | x in s :: keep(x)
    ensures Filter(s, keep) == s
  {
    if s != [] { FilterAll(s[1..], keep); }
  }

  lemma {:induction false} FilterNone<T(!new)>(s: seq<T>, keep: T -> bool)
    requires forall x | x in s :: !keep(x)
    ensures Filter(s, keep) == []
  {
    if s != [] { FilterNone(s[1..], keep); }
  }

  /** The first maximal element: of two that tie, the earlier one. */
  function Best<T>(s: seq<T>, less: (T, T) -> bool): Option<T> {
    if s == [] then None
    else
      match Best(s[1..], less)
      case None => Some(s[0])
      case Some(y) => Some(if less(s[0], y) then y else s[0])
  }

  ghost predicate IsFirstMax<T>(s: seq<T>, less: (T, T) -> bool, i: nat) {
    && i < |s|
    && (forall j | 0 <= j < |s| :: !less(s[i], s[j]))
    && (forall j | 0 <= j < i :: less(s[j], s[i]))
  }

  lemma {:induction false} BestIsFirstMax<T(!new)>(s: seq<T>, less: (T, T) -> bool) returns (i: nat)
    requires WeakOrder(less) && s != []
    ensures IsFirstMax(s, less, i) && Best(s, less) == Some(s[i])
  {
    if |s| == 1 {
      i := 0;
    } else {
      var k := BestIsFirstMax(s[1..], less);
      i := if less(s[0], s[k + 1]) then k + 1 else 0;
      assert forall j | 0 <= j < |s| - 1 :: s[j + 1] == s[1..][j];
    }
  }

  lemma BestIn<T(!new)>(s: seq<T>, less: (T, T) -> bool)
    requires WeakOrder(less)
    ensures Best(s, less).None? <==> s == []
    ensures Best(s, less).Some? ==> Best(s, less).value in s && forall x | x in s :: !less(Best(s, less).value, x)
  {
    if s != [] { var _ := BestIsFirstMax(s, less); }
  }

  /** A later element wins only by being strictly greater than the best so far. */
  lemma {:induction false} BestAppend<T(!new)>(s: seq<T>, x: T, less: (T, T) -> bool)
    requires WeakOrder(less)
    ensures Best(s + [x], less) ==
            Some(if Best(s, less).Some? && !less(Best(s, less).value, x) then Best(s, less).value else x)
  {
    if s == [] {
      assert s + [x] == [x];
    } else {
      assert (s + [x])[1..] == s[1..] + [x];
      BestAppend(s[1..], x, less);
      BestIn(s[1..], less);
    }
  }

  lemma {:induction false} InsertKeepsBest<T(!new)>(x: T, s: seq<T>, less: (T, T) -> bool, keep: T -> bool)
    requires WeakOrder(less)
    ensures Best(Filter(Insert(x, s, less), keep), less) == Best(Filter([x] + s, keep), less)
  {
    if s != [] && less(s[0], x) {
      var y := s[0];
      var t := s[1..];
      assert s == [y] + t && ([x] + s)[1..] == s && ([x] + t)[1..] == t;
      assert Insert(x, s, less)[1..] == Insert(x, t, less);
      InsertKeepsBest(x, t, less, keep);
      BestCons(x, y, Filter(t, keep), less);
    }
  }

  lemma BestCons<T(!new)>(x: T, y: T, s: seq<T>, less: (T, T) -> bool)
    requires WeakOrder(less) && less(y, x)
    ensures Best([y] + ([x] + s), less) == Best([x] + ([y] + s), less)
  {
    assert ([y] + ([x] + s))[1..] == [x] + s && ([x] + ([y] + s))[1..] == [y] + s;
    assert ([x] + s)[1..] == s && ([y] + s)[1..] == s;
  }

  /** Stable sorting does not change which element of a kept class is the first maximum. */
  lemma {:induction false} SortKeepsBest<T(!new)>(s: seq<T>, less: (T, T) -> bool, keep: T -> bool)
    requires WeakOrder(less)
    ensures Best(Filter(Sort(s, less), keep), less) == Best(Filter(s, keep), less)
  {
    if s != [] {
      var t := s[1..];
      var u := Sort(t, less);
      SortKeepsBest(t, less, keep);
      InsertKeepsBest(s[0], u, less, keep);
      assert s == [s[0]] + t && ([s[0]] + u)[1..] == u;
    }
  }
}

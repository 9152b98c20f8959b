/**
 The in-memory limiter: a bounded, ordered table of fixed windows that stands in for an
 unbounded counter. Time is the monotonic clock in seconds.
 */
module RateLimit {
  import opened StableSort
  import opened Wrappers

  datatype Entry = Entry(key: string, count: nat, expiresAt: real)

  /** Redis answers with a count and a remaining time, or fails. */
  datatype Backend = Memory | Redis(answer: Option<(nat, int)>)

  datatype Outcome = Passed | Limited(retryAfter: int) | Unavailable

  /** Oldest use first. */
  type Table = seq<Entry>

  ghost predicate Unique(t: Table) { forall i, j | 0 <= i < j < |t| :: t[i].key != t[j].key }

  function LiveAt(now: real): Entry -> bool { (e: Entry) => e.expiresAt > now }

  function Except(names: seq<string>): Entry -> bool { (e: Entry) => e.key !in names }

  function Find(t: Table, key: string): (r: Option<Entry>)
    ensures r.Some? ==> r.value in t && r.value.key == key
    ensures r.None? ==> forall e | e in t :: e.key != key
  {
    if t == [] then None else if t[0].key == key then Some(t[0]) else Find(t[1..], key)
  }

  /** The window of the key after one more call, in a table without expired entries. */
  function Hit(t: Table, key: string, now: real, window: nat): Entry {
    match Find(t, key)
    case Some(e) => e.(count := e.count + 1)
    case None => Entry(key, 1, now + window as real)
  }

  /** The key's window, counted up and moved to the end. */
  function Bumped(t: Table, key: string, now: real, window: nat): Table {
    Filter(t, Except([key])) + [Hit(t, key, now, window)]
  }

  function Newest(t: Table, cap: nat): Table { if |t| > cap then t[|t| - cap..] else t }

  function Max(a: int, b: int): int { if a < b then b else a }

  function RetryAfter(e: Entry, now: real): int { Max(1, (e.expiresAt - now + 0.999).Floor) }

  /** _check_memory */
  function Checked(t: Table, cap: nat, key: string, now: real, window: nat): Table {
    Newest(Bumped(Filter(t, LiveAt(now)), key, now, window), cap)
  }

  // ----- Filtering -----

  lemma {:induction false} FilterAgain(t: Table, p: Entry -> bool, q: Entry -> bool, r: Entry -> bool)
    requires forall e | e in t :: r(e) <==> p(e) && q(e)
    ensures Filter(Filter(t, p), q) == Filter(t, r)
  {
    if t != [] {
      FilterAgain(t[1..], p, q, r);
      if p(t[0]) { assert Filter(t, p)[1..] == Filter(t[1..], p); }
    }
  }

  lemma {:induction false} FilterSame(t: Table, p: Entry -> bool, q: Entry -> bool)
    requires forall e | e in t :: p(e) <==> q(e)
    ensures Filter(t, p) == Filter(t, q)
  {
    if t != [] { FilterSame(t[1..], p, q); }
  }

  lemma {:induction false} FilterUnique(t: Table, p: Entry -> bool)
    requires Unique(t)
    ensures Unique(Filter(t, p))
  {
    if t != [] {
      FilterUnique(t[1..], p);
      assert forall i | 0 < i < |t| :: t[i].key != t[0].key;
      assert forall e | e in Filter(t[1..], p) :: e in t[1..] && e.key != t[0].key;
    }
  }

  lemma BumpedUnique(t: Table, key: string, now: real, window: nat, n: nat)
    requires Unique(t) && n <= |Bumped(t, key, now, window)|
    ensures Unique(Bumped(t, key, now, window)[n..])
    ensures Hit(t, key, now, window).key == key
  {
    var rest := Filter(t, Except([key]));
    FilterUnique(t, Except([key]));
    assert forall i | 0 <= i < |rest| :: rest[i] in rest && rest[i].key != key;
  }

  // ----- The limiter -----

  method ExpiredNames(t: Table, now: real) returns (names: seq<string>)
    requires Unique(t)
    ensures forall e | e in t :: e.key in names <==> e.expiresAt <= now
  {
    names := [];
    for i := 0 to |t|
      invariant forall n | n in names :: exists j :: 0 <= j < i && t[j].key == n
      invariant forall j | 0 <= j < i :: t[j].key in names <==> t[j].expiresAt <= now
    {
      assert t[i].key !in names;
      if t[i].expiresAt <= now { names := names + [t[i].key]; }
    }
  }

  class MemoryLimiter {
    const cap: nat
    var windows: Table

    constructor (n: nat)
      ensures cap == n && windows == []
    {
      cap, windows := n, [];
    }

    /** Removes every window that has run out. */
    method Expire(now: real)
      requires Unique(windows)
      modifies this`windows
      ensures windows == Filter(old(windows), LiveAt(now)) && Unique(windows)
    {
      var expired := ExpiredNames(windows, now);
      FilterAll(windows, Except([]));
      for i := 0 to |expired|
        invariant windows == Filter(old(windows), Except(expired[..i]))
      {
        FilterAgain(old(windows), Except(expired[..i]), Except([expired[i]]), Except(expired[..i + 1]));
        windows := Filter(windows, Except([expired[i]]));
      }
      assert expired[..|expired|] == expired;
      FilterSame(old(windows), Except(expired), LiveAt(now));
      FilterUnique(old(windows), LiveAt(now));
    }

    /** Drops the least recently used windows while there are too many. */
    method Evict()
      requires Unique(windows) && cap > 0
      modifies this`windows
      ensures windows == Newest(old(windows), cap) && Unique(windows)
    {
      ghost var all := windows;
      while |windows| > cap
        invariant |windows| <= |all| && windows == all[|all| - |windows|..]
        invariant |windows| >= cap || windows == all
        decreases |windows|
      {
        windows := windows[1..];
      }
    }

    method CheckMemory(key: string, now: real, window: nat) returns (count: nat, retryAfter: int)
      requires Unique(windows) && cap > 0
      modifies this`windows
      ensures windows == Checked(old(windows), cap, key, now, window) && Unique(windows)
      ensures var e := Hit(Filter(old(windows), LiveAt(now)), key, now, window);
              count == e.count && retryAfter == RetryAfter(e, now)
      ensures |windows| <= cap && |windows| > 0 && windows[|windows| - 1].key == key
    {
      hide Filter, Hit, Unique;
      Expire(now);
      var current := Hit(windows, key, now, window);
      BumpedUnique(windows, key, now, window, 0);
      windows := Filter(windows, Except([key])) + [current];
      assert windows[0..] == windows;
      Evict();
      return current.count, RetryAfter(current, now);
    }

    /**
     The configured backend answers; when Redis fails, the call is refused if the settings fail
     closed, and counted in memory otherwise.
     */
    method CheckRateLimit(key: string, limit: nat, window: nat, now: real, backend: Backend, failClosed: bool)
      returns (outcome: Outcome)
      requires Unique(windows) && cap > 0
      modifies this`windows
      ensures Unique(windows)
      ensures var e := Hit(Filter(old(windows), LiveAt(now)), key, now, window);
              match backend
              case Redis(Some(answer)) =>
                windows == old(windows)
                && outcome == if answer.0 > limit then Limited(Max(1, answer.1)) else Passed
              case _ =>
                if backend.Redis? && failClosed then windows == old(windows) && outcome == Unavailable
                else windows == Checked(old(windows), cap, key, now, window)
                     && outcome == if e.count > limit then Limited(RetryAfter(e, now)) else Passed
    {
      var count: nat;
      var retryAfter: int;
      match backend {
        case Redis(Some(answer)) =>
          count, retryAfter := answer.0, Max(1, answer.1);
        case Redis(None) =>
          if failClosed { return Unavailable; }
          count, retryAfter := CheckMemory(key, now, window);
        case Memory =>
          count, retryAfter := CheckMemory(key, now, window);
      }
      if count > limit { return Limited(Max(1, retryAfter)); }
      return Passed;
    }
  }
}

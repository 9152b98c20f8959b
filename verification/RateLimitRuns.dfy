/**
 The bounded limiter against an unbounded counter: as long as the live keys fit, the two give
 the same answers, so no window lets more than its limit pass.
 */
module RateLimitRuns {
  import opened RateLimit
  import opened StableSort

  datatype Call = Call(key: string, now: real, window: nat)

  // ----- The reference: a counter that never forgets -----

  type Counters = map<string, Entry>

  function Counted(m: Counters, c: Call): Entry {
    if c.key in m && m[c.key].expiresAt > c.now then m[c.key].(count := m[c.key].count + 1)
    else Entry(c.key, 1, c.now + c.window as real)
  }

  function LiveKeys(m: Counters, now: real): set<string> { set k | k in m && m[k].expiresAt > now }

  /** The windows length is fixed by the key, and the clock does not go back. */
  ghost predicate Ordered(calls: seq<Call>, window: string -> nat) {
    && (forall i | 0 <= i < |calls| :: calls[i].window == window(calls[i].key) >= 1)
    && (forall i, j | 0 <= i < j < |calls| :: calls[i].now <= calls[j].now)
  }

  ghost predicate TableRun(cap: nat, tables: seq<Table>, calls: seq<Call>) {
    && |tables| == |calls| + 1 && tables[0] == []
    && forall i | 0 <= i < |calls| ::
         tables[i + 1] == Checked(tables[i], cap, calls[i].key, calls[i].now, calls[i].window)
  }

  ghost predicate CounterRun(counters: seq<Counters>, calls: seq<Call>) {
    && |counters| == |calls| + 1 && counters[0] == map[]
    && forall i | 0 <= i < |calls| :: counters[i + 1] == counters[i][calls[i].key := Counted(counters[i], calls[i])]
  }

  /** What the limiter answers to a call. */
  function Answer(t: Table, c: Call): Entry { Hit(Filter(t, LiveAt(c.now)), c.key, c.now, c.window) }

  // ----- In every case -----

  /** The table never outgrows its cap, keeps its keys distinct, and the caller's own window survives. */
  lemma StaysBounded(t: Table, cap: nat, c: Call)
    requires Unique(t) && cap > 0
    ensures var u := Checked(t, cap, c.key, c.now, c.window);
            Unique(u) && |u| <= cap && u != [] && u[|u| - 1] == Answer(t, c) && Answer(t, c).key == c.key
  {
    var live := Filter(t, LiveAt(c.now));
    FilterUnique(t, LiveAt(c.now));
    var bumped := Bumped(live, c.key, c.now, c.window);
    BumpedUnique(live, c.key, c.now, c.window, if |bumped| > cap then |bumped| - cap else 0);
    assert bumped[0..] == bumped;
  }

  lemma {:induction false} RunStaysBounded(cap: nat, tables: seq<Table>, calls: seq<Call>, i: nat)
    requires TableRun(cap, tables, calls) && cap > 0 && i < |tables|
    ensures Unique(tables[i]) && |tables[i]| <= cap
  {
    if i > 0 {
      RunStaysBounded(cap, tables, calls, i - 1);
      StaysBounded(tables[i - 1], cap, calls[i - 1]);
      assert tables[i - 1 + 1] == Checked(tables[i - 1], cap, calls[i - 1].key, calls[i - 1].now, calls[i - 1].window);
    }
  }

  /** No stored window ends later than its length from the last call on. */
  ghost predicate EndsInTime(t: Table, now: real, window: string -> nat) {
    forall e | e in t :: e.expiresAt <= now + window(e.key) as real
  }

  lemma AnswerEndsInTime(t: Table, cap: nat, c: Call, before: real, window: string -> nat)
    requires EndsInTime(t, before, window) && before <= c.now && c.window == window(c.key)
    ensures Answer(t, c).expiresAt <= c.now + c.window as real
    ensures EndsInTime(Checked(t, cap, c.key, c.now, c.window), c.now, window)
  {
    var live := Filter(t, LiveAt(c.now));
    var bumped := Bumped(live, c.key, c.now, c.window);
    forall e | e in Checked(t, cap, c.key, c.now, c.window) ensures e in bumped {
      var k :| 0 <= k < |Newest(bumped, cap)| && Newest(bumped, cap)[k] == e;
      if |bumped| > cap { assert e == bumped[|bumped| - cap + k]; }
    }
  }

  lemma {:induction false} RunEndsInTime(cap: nat, tables: seq<Table>, calls: seq<Call>, window: string -> nat, i: nat)
    requires TableRun(cap, tables, calls) && Ordered(calls, window) && i < |calls|
    ensures Answer(tables[i], calls[i]).expiresAt <= calls[i].now + calls[i].window as real
    ensures EndsInTime(tables[i + 1], calls[i].now, window)
  {
    hide Checked, Answer;
    if i == 0 {
      AnswerEndsInTime(tables[0], cap, calls[0], calls[0].now, window);
    } else {
      RunEndsInTime(cap, tables, calls, window, i - 1);
      assert tables[i - 1 + 1] == tables[i];
      AnswerEndsInTime(tables[i], cap, calls[i], calls[i - 1].now, window);
    }
  }

  /** The announced waiting time lies between one second and the window. */
  lemma RetryWithinWindow(cap: nat, tables: seq<Table>, calls: seq<Call>, window: string -> nat, i: nat)
    requires TableRun(cap, tables, calls) && Ordered(calls, window) && i < |calls|
    ensures 1 <= RetryAfter(Answer(tables[i], calls[i]), calls[i].now) <= calls[i].window
  {
    hide Answer;
    RunEndsInTime(cap, tables, calls, window, i);
    var e := Answer(tables[i], calls[i]);
    assert e.expiresAt - calls[i].now + 0.999 <= calls[i].window as real + 0.999;
    assert (calls[i].window as real + 0.999).Floor == calls[i].window;
  }

  /**
   After the announced time less than a millisecond of the window is left, and a time above one
   second is less than a second too long. The window has run out by then if and only if its rest
   was at most a second or was not less than a millisecond above a whole number of seconds.
   */
  lemma RetryExactly(e: Entry, now: real)
    ensures var w, rest := RetryAfter(e, now) as real, e.expiresAt - now;
            && rest < w + 0.001
            && (RetryAfter(e, now) > 1 ==> w < rest + 1.0)
            && (e.expiresAt <= now + w <==> rest <= 1.0 || rest - rest.Floor as real == 0.0
                                            || rest - rest.Floor as real >= 0.001)
  {
    var rest := e.expiresAt - now;
    var n := rest.Floor;
    assert (rest + 0.999).Floor == if rest - n as real >= 0.001 then n + 1 else n;
  }

  /** A rest of 1.0005 seconds is announced as one second: the promise fails by half a millisecond. */
  lemma RetryTooEarly()
    ensures var e := Entry("login", 6, 1.0005); RetryAfter(e, 0.0) == 1 && e.expiresAt > 0.0 + 1.0
  {
    assert (1.0005 + 0.999).Floor == 1;
  }

  // ----- Refinement -----

  /** The table holds exactly the live windows of the counter, and nothing that the counter lacks. */
  ghost predicate Refines(t: Table, m: Counters, now: real) {
    && Unique(t)
    && (forall k | k in m :: m[k].key == k)
    && (forall e | e in t :: e.key in m && m[e.key] == e)
    && (forall k | k in m && m[k].expiresAt > now :: m[k] in t)
  }

  lemma {:induction false} KeysCount(t: Table)
    requires Unique(t)
    ensures |set e | e in t :: e.key| == |t|
  {
    if t != [] {
      KeysCount(t[1..]);
      assert forall i | 0 < i < |t| :: t[i].key != t[0].key;
      assert (set e | e in t :: e.key) == {t[0].key} + set e | e in t[1..] :: e.key;
    }
  }

  lemma SubsetSize<T>(a: set<T>, b: set<T>)
    requires a <= b
    ensures |a| <= |b|
  {
    if a != {} {
      var x :| x in a;
      SubsetSize(a - {x}, b - {x});
    }
  }

  lemma FindsLive(t: Table, m: Counters, before: real, c: Call)
    requires Refines(t, m, before) && before <= c.now
    ensures Answer(t, c) == Counted(m, c)
  {
    var live := Filter(t, LiveAt(c.now));
    FilterUnique(t, LiveAt(c.now));
    if c.key in m && m[c.key].expiresAt > c.now {
      assert m[c.key] in live;
    }
  }

  lemma BumpedLive(live: Table, m: Counters, c: Call)
    requires c.window >= 1 && (forall e | e in live :: e.expiresAt > c.now && e.key in m && m[e.key] == e)
    requires Hit(live, c.key, c.now, c.window) == Counted(m, c) && Counted(m, c).key == c.key
    ensures var n := m[c.key := Counted(m, c)];
            forall e | e in Bumped(live, c.key, c.now, c.window) :: e.key in LiveKeys(n, c.now) && n[e.key] == e
  {
    assert Counted(m, c).expiresAt > c.now;
    assert forall e | e in Filter(live, Except([c.key])) :: e in live && e.key != c.key;
  }

  lemma LiveBumpRefines(live: Table, m: Counters, c: Call)
    requires Refines(live, m, c.now) && c.window >= 1
    requires forall e | e in live :: e.expiresAt > c.now
    requires Hit(live, c.key, c.now, c.window) == Counted(m, c)
    ensures Refines(Bumped(live, c.key, c.now, c.window), m[c.key := Counted(m, c)], c.now)
  {
    hide Hit, Counted, Unique;
    var rest, last := Filter(live, Except([c.key])), Counted(m, c);
    BumpedUnique(live, c.key, c.now, c.window, 0);
    assert (rest + [last])[0..] == rest + [last];
    RestRefines(live, rest, m, last, c.now);
  }

  lemma RestRefines(live: Table, rest: Table, m: Counters, last: Entry, now: real)
    requires Refines(live, m, now) && (forall e :: e in rest <==> e in live && e.key != last.key)
             && Unique(rest + [last])
    ensures Refines(rest + [last], m[last.key := last], now)
  {
    hide Unique;
    var t, n := rest + [last], m[last.key := last];
    assert t[|rest|] == last;
    forall e | e in t ensures e.key in n && n[e.key] == e { assert e in rest || e == last; }
    forall k | k in n && n[k].expiresAt > now ensures n[k] in t {
      if k != last.key { assert n[k] in live && n[k] in rest; }
    }
  }

  lemma LiveRefines(t: Table, m: Counters, before: real, now: real)
    requires Refines(t, m, before) && before <= now
    ensures Refines(Filter(t, LiveAt(now)), m, now)
  {
    FilterUnique(t, LiveAt(now));
  }

  /** A call that leaves the live keys within the cap is answered as the unbounded counter would. */
  lemma CallRefines(t: Table, m: Counters, before: real, cap: nat, c: Call)
    requires Refines(t, m, before) && before <= c.now && c.window >= 1 && cap > 0
    requires |LiveKeys(m[c.key := Counted(m, c)], c.now)| <= cap
    ensures Answer(t, c) == Counted(m, c)
    ensures Refines(Checked(t, cap, c.key, c.now, c.window), m[c.key := Counted(m, c)], c.now)
  {
    hide Refines, Hit, Counted, Bumped;
    FindsLive(t, m, before, c);
    LiveRefines(t, m, before, c.now);
    var live, n := Filter(t, LiveAt(c.now)), m[c.key := Counted(m, c)];
    LiveBumpRefines(live, m, c);
    RefinesFits(live, m, c);
  }

  lemma RefinesFits(live: Table, m: Counters, c: Call)
    requires Refines(live, m, c.now) && c.window >= 1 && (forall e | e in live :: e.expiresAt > c.now)
    requires Hit(live, c.key, c.now, c.window) == Counted(m, c)
    ensures |Bumped(live, c.key, c.now, c.window)| <= |LiveKeys(m[c.key := Counted(m, c)], c.now)|
  {
    var bumped := Bumped(live, c.key, c.now, c.window);
    BumpedUnique(live, c.key, c.now, c.window, 0);
    assert bumped[0..] == bumped;
    BumpedLive(live, m, c);
    KeysCount(bumped);
    SubsetSize(set e | e in bumped :: e.key, LiveKeys(m[c.key := Counted(m, c)], c.now));
  }

  /** In a run whose live keys always fit, every answer is the unbounded counter's. */
  lemma {:induction false} RunRefines(cap: nat, tables: seq<Table>, counters: seq<Counters>, calls: seq<Call>,
      window: string -> nat, i: nat)
    requires TableRun(cap, tables, calls) && CounterRun(counters, calls) && Ordered(calls, window) && cap > 0
             && i < |calls|
    requires forall j | 0 <= j < |calls| :: |LiveKeys(counters[j + 1], calls[j].now)| <= cap
    ensures Answer(tables[i], calls[i]) == Counted(counters[i], calls[i])
    ensures Refines(tables[i + 1], counters[i + 1], calls[i].now)
  {
    hide Answer, Checked, Counted;
    assert tables[i + 1] == Checked(tables[i], cap, calls[i].key, calls[i].now, calls[i].window);
    assert counters[i + 1] == counters[i][calls[i].key := Counted(counters[i], calls[i])];
    if i == 0 {
      CallRefines(tables[0], counters[0], calls[0].now, cap, calls[0]);
    } else {
      RunRefines(cap, tables, counters, calls, window, i - 1);
      assert tables[i - 1 + 1] == tables[i] && counters[i - 1 + 1] == counters[i];
      CallRefines(tables[i], counters[i], calls[i - 1].now, cap, calls[i]);
    }
  }

  // ----- At most the limit -----

  /** Calls of the key that were counted in the window ending at e and passed the limit. */
  function Passed(counters: seq<Counters>, calls: seq<Call>, key: string, e: real, limit: nat, n: nat): nat
    requires n <= |calls| && |counters| == |calls| + 1
  {
    if n == 0 then 0
    else
      var c := Counted(counters[n - 1], calls[n - 1]);
      Passed(counters, calls, key, e, limit, n - 1) +
      if calls[n - 1].key == key && c.expiresAt == e && c.count <= limit then 1 else 0
  }

  lemma {:induction false} PassedWithinLimit(counters: seq<Counters>, calls: seq<Call>, window: string -> nat,
      key: string, e: real, limit: nat, n: nat)
    requires CounterRun(counters, calls) && Ordered(calls, window) && n <= |calls|
    ensures Passed(counters, calls, key, e, limit, n) <= limit
    ensures key in counters[n] && counters[n][key].expiresAt == e ==>
            Passed(counters, calls, key, e, limit, n) <= counters[n][key].count
    ensures key !in counters[n] || counters[n][key].expiresAt < e ==> Passed(counters, calls, key, e, limit, n) == 0
  {
    if n > 0 {
      PassedWithinLimit(counters, calls, window, key, e, limit, n - 1);
      assert counters[n - 1 + 1] == counters[n - 1][calls[n - 1].key := Counted(counters[n - 1], calls[n - 1])];
    }
  }

  /** Answers of the bounded limiter that passed, counted over the same window. */
  function PassedBounded(tables: seq<Table>, calls: seq<Call>, key: string, e: real, limit: nat, n: nat): nat
    requires n <= |calls| && |tables| == |calls| + 1
  {
    if n == 0 then 0
    else
      var c := Answer(tables[n - 1], calls[n - 1]);
      PassedBounded(tables, calls, key, e, limit, n - 1) +
      if calls[n - 1].key == key && c.expiresAt == e && c.count <= limit then 1 else 0
  }

  lemma {:induction false} PassedAgrees(cap: nat, tables: seq<Table>, counters: seq<Counters>, calls: seq<Call>,
      window: string -> nat, key: string, e: real, limit: nat, n: nat)
    requires TableRun(cap, tables, calls) && CounterRun(counters, calls) && Ordered(calls, window) && cap > 0
             && n <= |calls|
    requires forall j | 0 <= j < |calls| :: |LiveKeys(counters[j + 1], calls[j].now)| <= cap
    ensures PassedBounded(tables, calls, key, e, limit, n) == Passed(counters, calls, key, e, limit, n)
  {
    hide Answer, Counted, LiveKeys, TableRun, CounterRun, Ordered;
    if n > 0 {
      RunSizes(cap, tables, counters, calls);
      PassedAgrees(cap, tables, counters, calls, window, key, e, limit, n - 1);
      RunRefines(cap, tables, counters, calls, window, n - 1);
    }
  }

  lemma RunSizes(cap: nat, tables: seq<Table>, counters: seq<Counters>, calls: seq<Call>)
    requires TableRun(cap, tables, calls) && CounterRun(counters, calls)
    ensures |tables| == |counters| == |calls| + 1
  {}

  /** While the live keys fit, at most the limit of calls pass for each key and window. */
  lemma AtMostLimitPass(cap: nat, tables: seq<Table>, counters: seq<Counters>, calls: seq<Call>,
      window: string -> nat, key: string, e: real, limit: nat)
    requires TableRun(cap, tables, calls) && CounterRun(counters, calls) && Ordered(calls, window) && cap > 0
    requires forall j | 0 <= j < |calls| :: |LiveKeys(counters[j + 1], calls[j].now)| <= cap
    ensures PassedBounded(tables, calls, key, e, limit, |calls|) <= limit
  {
    hide LiveKeys;
    PassedAgrees(cap, tables, counters, calls, window, key, e, limit, |calls|);
    PassedWithinLimit(counters, calls, window, key, e, limit, |calls|);
  }
}

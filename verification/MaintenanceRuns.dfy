/**
 Deployments and prunes under the one lock: deployments change releases and pointers only while
 they hold it, so a prune inside the lock always runs to its end.
 */
module MaintenanceRuns {
  import opened MaintenanceLock
  import opened Retention
  import opened StableSort
  import opened Wrappers

  /** A prune in progress: what it found at its start, what it selected, and how many it has deleted. */
  datatype Job = Job(file: nat, start: seq<Release>, retention: nat, selected: seq<Release>, next: nat)

  datatype Host = Host(lock: World, entries: seq<Release>, current: string, previous: string, jobs: map<nat, Job>)

  datatype Move =
    | LockMove(action: Action)
    | Deploy(process: nat, file: nat, entries: seq<Release>, current: string, previous: string)
    | Begin(process: nat, file: nat, retention: nat)
    | DeleteNext(process: nat)
    | Stop(process: nat)
    | End(process: nat)

  predicate Holds(w: World, p: nat, f: nat) { HasOpen(w, p, f) && f in w.acquired }

  /** The checks that come before each deletion: the release is still there and safe, and not protected. */
  predicate MayDelete(h: Host, r: Release) {
    && r in h.entries && r.safe
    && PointsAtRelease(h.entries, h.current) && PointsAtRelease(h.entries, h.previous)
    && r.name != h.current && r.name != h.previous
  }

  /**
   A cleaner is a single process that keeps its descriptor while it prunes; any other tree may
   fork and deploy. A deployment needs the lock, and so does the start of a prune.
   */
  ghost predicate CanMove(h: Host, m: Move, cleaners: set<nat>) {
    match m
    case LockMove(a) =>
      && MaintenanceLock.Can(h.lock, a) && !a.Delete?
      && (a.Spawn? ==> h.lock.processes[a.process].tree !in cleaners)
      && (a.Close? ==> a.process !in h.jobs)
    case Deploy(p, f, entries, current, previous) =>
      && Holds(h.lock, p, f) && h.lock.processes[p].tree !in cleaners && Retention.Unique(entries)
    case Begin(p, f, retention) =>
      && Holds(h.lock, p, f) && h.lock.processes[p].tree in cleaners && p !in h.jobs
      && Selection(h.entries, h.current, h.previous, retention).Ok?
      && forall x | x in Selection(h.entries, h.current, h.previous, retention).value :: !x.mounted
    case DeleteNext(p) =>
      p in h.jobs && h.jobs[p].next < |h.jobs[p].selected| && MayDelete(h, h.jobs[p].selected[h.jobs[p].next])
    case Stop(p) =>
      p in h.jobs && h.jobs[p].next < |h.jobs[p].selected| && !MayDelete(h, h.jobs[p].selected[h.jobs[p].next])
    case End(p) => p in h.jobs && h.jobs[p].next == |h.jobs[p].selected|
  }

  ghost function Moved(h: Host, m: Move, cleaners: set<nat>): Host
    requires CanMove(h, m, cleaners)
  {
    match m
    case LockMove(a) =>
      h.(lock := MaintenanceLock.After(h.lock, a), jobs := if a.Kill? then h.jobs - {a.process} else h.jobs)
    case Deploy(_, _, entries, current, previous) => h.(entries := entries, current := current, previous := previous)
    case Begin(p, f, retention) =>
      var selected := Selection(h.entries, h.current, h.previous, retention).value;
      h.(jobs := h.jobs[p := Job(f, h.entries, retention, selected, 0)])
    case DeleteNext(p) =>
      var job := h.jobs[p];
      h.(entries := Filter(h.entries, Outside({job.selected[job.next].name})),
         jobs := h.jobs[p := job.(next := job.next + 1)])
    case Stop(p) => h.(jobs := h.jobs - {p})
    case End(p) => h.(jobs := h.jobs - {p})
  }

  // ----- The invariant -----

  /** A cleaner's tree is the one process that started it. */
  ghost predicate CleanersAlone(w: World, cleaners: set<nat>) {
    forall p | p in w.processes && w.processes[p].tree in cleaners :: w.processes[p].tree == p
  }

  /** The prune stands exactly where it should: nothing but its own deletions has happened since its start. */
  ghost predicate OnTrack(h: Host, job: Job) {
    && Retention.Unique(job.start) && job.next <= |job.selected|
    && Selection(job.start, h.current, h.previous, job.retention) == Ok(job.selected)
    && h.entries == Left(job.start, job.selected[..job.next])
  }

  ghost predicate HostInv(h: Host, cleaners: set<nat>) {
    && MaintenanceLock.Inv(h.lock) && CleanersAlone(h.lock, cleaners) && Retention.Unique(h.entries)
    && (forall p | p in h.jobs :: Holds(h.lock, p, h.jobs[p].file) && h.lock.processes[p].tree in cleaners)
    && (forall p | p in h.jobs :: OnTrack(h, h.jobs[p]))
  }

  /** Two processes that hold the lock belong to one tree. */
  lemma HoldersShareTree(w: World, p: nat, f: nat, q: nat, g: nat)
    requires MaintenanceLock.Inv(w) && Holds(w, p, f) && Holds(w, q, g)
    ensures w.processes[p].tree == w.processes[q].tree
  {}

  /** While a prune runs, no deployment can. */
  lemma NoDeploymentDuringPrune(h: Host, cleaners: set<nat>, p: nat, m: Move)
    requires HostInv(h, cleaners) && p in h.jobs && m.Deploy?
    ensures !CanMove(h, m, cleaners)
  {
    if Holds(h.lock, m.process, m.file) { HoldersShareTree(h.lock, p, h.jobs[p].file, m.process, m.file); }
  }

  lemma OneJob(h: Host, cleaners: set<nat>, p: nat, q: nat, f: nat)
    requires HostInv(h, cleaners) && p in h.jobs && Holds(h.lock, q, f) && h.lock.processes[q].tree in cleaners
    ensures p == q
  {
    HoldersShareTree(h.lock, p, h.jobs[p].file, q, f);
  }

  lemma OnTrackDeletes(h: Host, job: Job)
    requires OnTrack(h, job) && job.next < |job.selected|
    ensures MayDelete(h, job.selected[job.next])
    ensures Filter(h.entries, Outside({job.selected[job.next].name})) == Left(job.start, job.selected[..job.next + 1])
  {
    hide PointsAtRelease, Retention.Unique, Excess, Left, MayDelete;
    SelectedFacts(job.start, h.current, h.previous, job.retention);
    StillThere(job.start, job.selected, job.next);
    SelectedSafe(job.start, h.current, h.previous, job.retention, job.selected[job.next]);
    PointersStay(job.start, job.selected, job.next, h.current);
    PointersStay(job.start, job.selected, job.next, h.previous);
    LeftMore(job.start, job.selected[..job.next], job.selected[job.next]);
    assert job.selected[..job.next] + [job.selected[job.next]] == job.selected[..job.next + 1];
    Deletable(h, job.selected[job.next]);
  }

  lemma Deletable(h: Host, r: Release)
    requires PointsAtRelease(h.entries, h.current) && PointsAtRelease(h.entries, h.previous)
    requires r in h.entries && r.safe && r.name != h.current && r.name != h.previous
    ensures MayDelete(h, r)
  {}

  lemma StillThere(rs: seq<Release>, paths: seq<Release>, i: nat)
    requires i < |paths| && Retention.Unique(paths) && paths[i] in rs
    ensures paths[i] in Left(rs, paths[..i])
  {
    assert forall x | x in paths[..i] :: x.name != paths[i].name;
  }

  lemma SelectedSafe(rs: seq<Release>, current: string, previous: string, retention: nat, x: Release)
    requires Selection(rs, current, previous, retention).Ok? && x in rs
    ensures x.safe
  {
    hide PointsAtRelease, Excess;
    assert Classified(x);
  }

  lemma LockKeepsHolders(w: World, a: Action, p: nat, f: nat)
    requires MaintenanceLock.Inv(w) && MaintenanceLock.Can(w, a) && Holds(w, p, f)
    requires !(a.Kill? && a.process == p) && !(a.Close? && a.process == p)
    ensures Holds(MaintenanceLock.After(w, a), p, f)
    ensures MaintenanceLock.After(w, a).processes[p].tree == w.processes[p].tree
  {}

  lemma LockKeepsCleaners(w: World, a: Action, cleaners: set<nat>)
    requires CleanersAlone(w, cleaners) && MaintenanceLock.Can(w, a)
    requires a.Spawn? ==> w.processes[a.process].tree !in cleaners
    ensures CleanersAlone(MaintenanceLock.After(w, a), cleaners)
  {}

  lemma LockMoveKeeps(h: Host, a: Action, cleaners: set<nat>)
    requires HostInv(h, cleaners) && CanMove(h, LockMove(a), cleaners)
    ensures HostInv(Moved(h, LockMove(a), cleaners), cleaners)
  {
    hide MaintenanceLock.Inv, MaintenanceLock.After, MaintenanceLock.Can, OnTrack, Holds, CleanersAlone;
    MaintenanceLock.StepKeepsInv(h.lock, a);
    LockKeepsCleaners(h.lock, a, cleaners);
    var x := Moved(h, LockMove(a), cleaners);
    forall p | p in x.jobs
      ensures p in x.lock.processes && Holds(x.lock, p, x.jobs[p].file) && x.lock.processes[p].tree in cleaners
      ensures OnTrack(x, x.jobs[p])
    {
      LockKeepsHolders(h.lock, a, p, h.jobs[p].file);
      HeldIsRunning(x.lock, p, x.jobs[p].file);
      SameHostOnTrack(h, x, h.jobs[p]);
    }
  }

  lemma HeldIsRunning(w: World, p: nat, f: nat)
    requires Holds(w, p, f)
    ensures p in w.processes
  {}

  lemma SameHostOnTrack(h: Host, x: Host, job: Job)
    requires OnTrack(h, job) && x.entries == h.entries && x.current == h.current && x.previous == h.previous
    ensures OnTrack(x, job)
  {}

  lemma BeginIsOnTrack(h: Host, p: nat, f: nat, retention: nat)
    requires Retention.Unique(h.entries) && Selection(h.entries, h.current, h.previous, retention).Ok?
    ensures OnTrack(h, Job(f, h.entries, retention, Selection(h.entries, h.current, h.previous, retention).value, 0))
  {
    var selected := Selection(h.entries, h.current, h.previous, retention).value;
    assert selected[..0] == [];
    NothingGone(h.entries);
  }

  lemma PruneMoveKeeps(h: Host, m: Move, cleaners: set<nat>)
    requires HostInv(h, cleaners) && CanMove(h, m, cleaners) && !m.LockMove? && !m.Deploy?
    ensures HostInv(Moved(h, m, cleaners), cleaners)
  {
    hide MaintenanceLock.Inv, OnTrack, Selection, MayDelete, CleanersAlone, Retention.Unique;
    var x := Moved(h, m, cleaners);
    forall q | q in h.jobs ensures m.Begin? || q == m.process || !m.DeleteNext? {
      if m.DeleteNext? { OneJob(h, cleaners, q, m.process, h.jobs[m.process].file); }
    }
    if m.Begin? { BeginIsOnTrack(h, m.process, m.file, m.retention); }
    if m.DeleteNext? {
      OnTrackDeletes(h, h.jobs[m.process]);
      DeletedIsOnTrack(h, x, h.jobs[m.process]);
      FilterUnique(h.entries, Outside({h.jobs[m.process].selected[h.jobs[m.process].next].name}));
    }
    forall q | q in x.jobs ensures OnTrack(x, x.jobs[q]) {
      if q in h.jobs && !m.DeleteNext? && x.jobs[q] == h.jobs[q] { SameHostOnTrack(h, x, h.jobs[q]); }
      if m.Begin? && q == m.process { SameHostOnTrack(h, x, x.jobs[q]); }
    }
  }

  lemma DeletedIsOnTrack(h: Host, x: Host, job: Job)
    requires OnTrack(h, job) && job.next < |job.selected| && x.current == h.current && x.previous == h.previous
    requires x.entries == Left(job.start, job.selected[..job.next + 1])
    ensures OnTrack(x, job.(next := job.next + 1))
  {}

  lemma MoveKeepsInv(h: Host, m: Move, cleaners: set<nat>)
    requires HostInv(h, cleaners) && CanMove(h, m, cleaners)
    ensures HostInv(Moved(h, m, cleaners), cleaners)
  {
    hide MaintenanceLock.Inv, OnTrack, CleanersAlone;
    if m.LockMove? {
      LockMoveKeeps(h, m.action, cleaners);
    } else if m.Deploy? {
      forall p | p in h.jobs ensures false { NoDeploymentDuringPrune(h, cleaners, p, m); }
    } else {
      PruneMoveKeeps(h, m, cleaners);
    }
  }

  // ----- Whole runs -----

  ghost predicate HostRun(hosts: seq<Host>, moves: seq<Move>, cleaners: set<nat>) {
    && |hosts| == |moves| + 1
    && hosts[0].lock == QUIET && hosts[0].jobs == map[] && Retention.Unique(hosts[0].entries)
    && forall i | 0 <= i < |moves| ::
         CanMove(hosts[i], moves[i], cleaners) && hosts[i + 1] == Moved(hosts[i], moves[i], cleaners)
  }

  lemma {:induction false} RunKeepsHost(hosts: seq<Host>, moves: seq<Move>, cleaners: set<nat>, i: nat)
    requires HostRun(hosts, moves, cleaners) && i < |hosts|
    ensures HostInv(hosts[i], cleaners)
  {
    hide CanMove, Moved;
    if i > 0 {
      RunKeepsHost(hosts, moves, cleaners, i - 1);
      assert CanMove(hosts[i - 1], moves[i - 1], cleaners)
             && hosts[i - 1 + 1] == Moved(hosts[i - 1], moves[i - 1], cleaners);
      MoveKeepsInv(hosts[i - 1], moves[i - 1], cleaners);
    }
  }

  /** In every run, killed processes included: no prune ever finds a selected release protected or a pointer gone. */
  lemma PruneNeverStops(hosts: seq<Host>, moves: seq<Move>, cleaners: set<nat>, i: nat)
    requires HostRun(hosts, moves, cleaners) && i < |moves|
    ensures !moves[i].Stop?
  {
    RunKeepsHost(hosts, moves, cleaners, i);
    assert CanMove(hosts[i], moves[i], cleaners);
    if moves[i].Stop? {
      var job := hosts[i].jobs[moves[i].process];
      OnTrackDeletes(hosts[i], job);
    }
  }

  /**
   At every moment of a run each prune can go on. The release that comes next is there, safe and
   protected by neither pointer; deleting it takes exactly that release away and nothing else.
   When none is left the prune can end.
   */
  lemma PruneGoesOn(hosts: seq<Host>, moves: seq<Move>, cleaners: set<nat>, i: nat, p: nat)
    requires HostRun(hosts, moves, cleaners) && i < |hosts| && p in hosts[i].jobs
    ensures var (h, job) := (hosts[i], hosts[i].jobs[p]);
            if job.next < |job.selected| then
              var r := job.selected[job.next];
              && r in h.entries && r.safe && r.name != h.current && r.name != h.previous
              && CanMove(h, DeleteNext(p), cleaners)
              && var x := Moved(h, DeleteNext(p), cleaners);
                 && (forall y :: y in x.entries <==> y in h.entries && y.name != r.name)
                 && x.current == h.current && x.previous == h.previous && x.lock == h.lock
                 && x.jobs == h.jobs[p := job.(next := job.next + 1)]
            else
              && CanMove(h, End(p), cleaners)
              && Moved(h, End(p), cleaners) == h.(jobs := h.jobs - {p})
  {
    hide OnTrack, MaintenanceLock.Inv, CleanersAlone, Retention.Unique, PointsAtRelease;
    RunKeepsHost(hosts, moves, cleaners, i);
    var h, job := hosts[i], hosts[i].jobs[p];
    TrackBounds(h, job);
    if job.next < |job.selected| { OnTrackDeletes(h, job); }
  }

  lemma TrackBounds(h: Host, job: Job)
    requires OnTrack(h, job)
    ensures job.next <= |job.selected|
  {}

  /** A prune that may begin has found, and works from, exactly the releases and pointers of that moment. */
  lemma BeginExactly(h: Host, p: nat, f: nat, retention: nat, cleaners: set<nat>)
    requires CanMove(h, Begin(p, f, retention), cleaners)
    ensures p !in h.jobs && Holds(h.lock, p, f)
    ensures var x := Moved(h, Begin(p, f, retention), cleaners);
            && x == h.(jobs := x.jobs) && x.jobs.Keys == h.jobs.Keys + {p}
            && x.jobs[p].start == h.entries && x.jobs[p].retention == retention && x.jobs[p].next == 0
            && Selection(h.entries, h.current, h.previous, retention) == Ok(x.jobs[p].selected)
            && (forall r | r in x.jobs[p].selected :: !r.mounted)
            && (forall q | q in h.jobs :: x.jobs[q] == h.jobs[q])
  {}

  /** No deployment comes between two steps of a prune. */
  lemma DeploymentsWait(hosts: seq<Host>, moves: seq<Move>, cleaners: set<nat>, i: nat)
    requires HostRun(hosts, moves, cleaners) && i < |moves| && hosts[i].jobs != map[]
    ensures !moves[i].Deploy?
  {
    RunKeepsHost(hosts, moves, cleaners, i);
    assert CanMove(hosts[i], moves[i], cleaners);
    var p :| p in hosts[i].jobs;
    if moves[i].Deploy? { NoDeploymentDuringPrune(hosts[i], cleaners, p, moves[i]); }
  }

  /**
   A prune that ends has deleted exactly what it selected at its start: the pointers it found
   are still there, and the smaller of total and retention is left.
   */
  lemma EndedPruneIsComplete(hosts: seq<Host>, moves: seq<Move>, cleaners: set<nat>, i: nat)
    requires HostRun(hosts, moves, cleaners) && i < |moves| && moves[i].End?
    ensures moves[i].process in hosts[i].jobs
    ensures var (h, job) := (hosts[i], hosts[i].jobs[moves[i].process]);
            && h.entries == Left(job.start, job.selected)
            && |h.entries| == (if |job.start| < job.retention then |job.start| else job.retention)
            && PointsAtRelease(h.entries, h.current) && PointsAtRelease(h.entries, h.previous)
            && Selection(h.entries, h.current, h.previous, job.retention) == Ok([])
  {
    hide PointsAtRelease, Retention.Unique, Excess;
    RunKeepsHost(hosts, moves, cleaners, i);
    assert CanMove(hosts[i], moves[i], cleaners);
    var h, job := hosts[i], hosts[i].jobs[moves[i].process];
    assert OnTrack(h, job);
    assert job.selected[..job.next] == job.selected;
    SurvivorCount(job.start, h.current, h.previous, job.retention);
    ProtectedSurvive(job.start, h.current, h.previous, job.retention);
    PruneIsIdempotent(job.start, h.current, h.previous, job.retention);
  }

  // ----- One run -----

  const NEW := Release("c", 3, true, true, false)

  const MIDDLE := Release("b", 2, true, true, false)

  const OLD := Release("a", 1, true, true, false)

  const DEPLOYED := [OLD, MIDDLE, NEW]

  lemma DeployedLists()
    ensures DEPLOYED[1..] == [MIDDLE, NEW] && [MIDDLE, NEW][1..] == [NEW] && [NEW][1..] == []
  {}

  lemma DeployedPointers()
    ensures PointsAtRelease(DEPLOYED, "c") && PointsAtRelease(DEPLOYED, "b")
  {
    DeployedLists();
    assert Named([NEW], "c") == Some(NEW) && Named([MIDDLE, NEW], "c") == Some(NEW);
  }

  lemma DeployedFilters(names: set<string>)
    requires names == {"c", "b"} || names == {"a"}
    ensures Filter(DEPLOYED, Outside(names)) == if names == {"a"} then [MIDDLE, NEW] else [OLD]
  {
    DeployedLists();
    assert Filter([NEW], Outside(names)) == if names == {"a"} then [NEW] else [];
    assert Filter([MIDDLE, NEW], Outside(names)) == if names == {"a"} then [MIDDLE, NEW] else [];
  }

  lemma DeployedSelection()
    ensures Retention.Unique(DEPLOYED) && Selection(DEPLOYED, "c", "b", 2) == Ok([OLD])
    ensures Filter(DEPLOYED, Outside({"a"})) == [MIDDLE, NEW]
  {
    hide Filter, PointsAtRelease;
    DeployedPointers();
    DeployedFilters({"c", "b"});
    DeployedFilters({"a"});
    assert [OLD][1..] == [] && Sort([OLD], Sooner) == [OLD];
    assert |{"c", "b"}| == 2 by { assert {"c", "b"} - {"c"} == {"b"}; }
  }

  /** The deployer: started, with the lock file open, and holding the lock. */
  const W1 := World(map[2 := Process(2, {})], map[], {}, None)

  const W2 := World(map[2 := Process(2, {5})], map[5 := 2], {}, None)

  const W3 := World(map[2 := Process(2, {5})], map[5 := 2], {5}, Some(5))

  /** The deployer is gone, and the cleaner does the same. */
  const W4 := World(map[], map[5 := 2], {5}, None)

  const W5 := World(map[1 := Process(1, {})], map[5 := 2], {5}, None)

  const W6 := World(map[1 := Process(1, {7})], map[5 := 2, 7 := 1], {5}, None)

  const W7 := World(map[1 := Process(1, {7})], map[5 := 2, 7 := 1], {5, 7}, Some(7))

  function Before(w: World): Host { Host(w, [], "", "", map[]) }

  function Deployed(w: World): Host { Host(w, DEPLOYED, "c", "b", map[]) }

  const JOB := Job(7, DEPLOYED, 2, [OLD], 0)

  const PRUNING := Deployed(W7).(jobs := map[1 := JOB])

  const PRUNED := PRUNING.(entries := [MIDDLE, NEW], jobs := map[1 := JOB.(next := 1)])

  const ENDED := PRUNED.(jobs := map[])

  ghost predicate Goes(h: Host, m: Move, x: Host) { CanMove(h, m, {1}) && x == Moved(h, m, {1}) }

  lemma LockGoes(h: Host, a: Action, w: World)
    requires MaintenanceLock.Can(h.lock, a) && w == MaintenanceLock.After(h.lock, a) && h.jobs == map[]
    requires !a.Delete? && !a.Spawn?
    ensures Goes(h, LockMove(a), h.(lock := w))
  {
    hide MaintenanceLock.Can, MaintenanceLock.After;
    assert a.Kill? ==> h.jobs - {a.process} == map[];
  }

  lemma Locked(w: World, p: nat, f: nat, a: World, b: World, c: World)
    requires w.processes == map[] && w.holder.None? && f !in w.openedBy
    requires a == w.(processes := map[p := Process(p, {})])
    requires b == World(map[p := Process(p, {f})], w.openedBy[f := p], w.acquired, None)
    requires c == b.(acquired := w.acquired + {f}, holder := Some(f))
    ensures MaintenanceLock.Can(w, Start(p)) && MaintenanceLock.After(w, Start(p)) == a
    ensures MaintenanceLock.Can(a, Open(p, f)) && MaintenanceLock.After(a, Open(p, f)) == b
    ensures MaintenanceLock.Can(b, TryLock(p, f)) && MaintenanceLock.After(b, TryLock(p, f)) == c
  {
    assert {} + {f} == {f};
  }

  lemma DeployerTurn()
    ensures Goes(Before(QUIET), LockMove(Start(2)), Before(W1)) && Goes(Before(W1), LockMove(Open(2, 5)), Before(W2))
    ensures Goes(Before(W2), LockMove(TryLock(2, 5)), Before(W3))
  {
    hide Goes, MaintenanceLock.Can, MaintenanceLock.After;
    assert {} + {5} == {5};
    Locked(QUIET, 2, 5, W1, W2, W3);
    LockGoes(Before(QUIET), Start(2), W1);
    LockGoes(Before(W1), Open(2, 5), W2);
    LockGoes(Before(W2), TryLock(2, 5), W3);
  }

  lemma DeployerDeploys()
    ensures Goes(Before(W3), Deploy(2, 5, DEPLOYED, "c", "b"), Deployed(W3))
    ensures Goes(Deployed(W3), LockMove(MaintenanceLock.Kill(2)), Deployed(W4))
  {
    hide Goes, Selection, Filter;
    DeployedSelection();
    assert W3.processes - {2} == map[];
    assert MaintenanceLock.After(W3, MaintenanceLock.Kill(2)) == W4;
    LockGoes(Deployed(W3), MaintenanceLock.Kill(2), W4);
    DeployGoes(W3);
  }

  lemma DeployGoes(w: World)
    requires Holds(w, 2, 5) && w.processes[2].tree == 2 && Retention.Unique(DEPLOYED)
    ensures Goes(Before(w), Deploy(2, 5, DEPLOYED, "c", "b"), Deployed(w))
  {}

  lemma CleanerTakesLock()
    ensures Goes(Deployed(W4), LockMove(Start(1)), Deployed(W5))
    ensures Goes(Deployed(W5), LockMove(Open(1, 7)), Deployed(W6))
    ensures Goes(Deployed(W6), LockMove(TryLock(1, 7)), Deployed(W7))
  {
    hide Goes, MaintenanceLock.Can, MaintenanceLock.After;
    assert {5} + {7} == {5, 7} && map[5 := 2][7 := 1] == map[5 := 2, 7 := 1];
    Locked(W4, 1, 7, W5, W6, W7);
    LockGoes(Deployed(W4), Start(1), W5);
    LockGoes(Deployed(W5), Open(1, 7), W6);
    LockGoes(Deployed(W6), TryLock(1, 7), W7);
  }

  lemma CleanerPrunes()
    ensures Goes(Deployed(W7), Begin(1, 7, 2), PRUNING) && Goes(PRUNING, DeleteNext(1), PRUNED)
    ensures Goes(PRUNED, End(1), ENDED)
  {
    hide Selection, Filter;
    DeployedSelection();
    DeployedPointers();
    assert PRUNED.jobs - {1} == map[];
  }

  lemma GoOn(hosts: seq<Host>, moves: seq<Move>, m: Move, x: Host) returns (more: seq<Host>, also: seq<Move>)
    requires HostRun(hosts, moves, {1}) && |hosts| == |moves| + 1 && Goes(hosts[|moves|], m, x)
    ensures more == hosts + [x] && also == moves + [m] && HostRun(more, also, {1})
  {
    hide CanMove, Moved;
    more, also := hosts + [x], moves + [m];
  }

  lemma FirstTurn() returns (h: seq<Host>, m: seq<Move>)
    ensures HostRun(h, m, {1}) && |h| == 6 && |m| == 5 && m[3].Deploy? && h[5] == Deployed(W4)
  {
    hide CanMove, Moved, Goes;
    DeployerTurn();
    DeployerDeploys();
    h, m := [Before(QUIET)], [];
    h, m := GoOn(h, m, LockMove(Start(2)), Before(W1));
    h, m := GoOn(h, m, LockMove(Open(2, 5)), Before(W2));
    h, m := GoOn(h, m, LockMove(TryLock(2, 5)), Before(W3));
    h, m := GoOn(h, m, Deploy(2, 5, DEPLOYED, "c", "b"), Deployed(W3));
    h, m := GoOn(h, m, LockMove(MaintenanceLock.Kill(2)), Deployed(W4));
  }

  /**
   Deployment and prune do take turns: process 2 takes the lock, deploys three releases and is
   killed; process 1 then takes the lock, deletes the oldest release and ends.
   */
  lemma TurnsAreReachable()
    ensures exists hosts: seq<Host>, moves: seq<Move> ::
              && HostRun(hosts, moves, {1}) && |moves| == 11
              && moves[3].Deploy? && moves[9].DeleteNext? && moves[10].End? && hosts[11] == ENDED
  {
    hide HostRun, Goes;
    CleanerTakesLock();
    CleanerPrunes();
    var h, m := FirstTurn();
    h, m := GoOn(h, m, LockMove(Start(1)), Deployed(W5));
    h, m := GoOn(h, m, LockMove(Open(1, 7)), Deployed(W6));
    h, m := GoOn(h, m, LockMove(TryLock(1, 7)), Deployed(W7));
    h, m := GoOn(h, m, Begin(1, 7, 2), PRUNING);
    h, m := GoOn(h, m, DeleteNext(1), PRUNED);
    h, m := GoOn(h, m, End(1), ENDED);
  }
}

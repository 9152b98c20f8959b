/**
 One lock file for deployments and cleanups. A lock belongs to an open file description; child
 processes inherit it, and it ends when the last descriptor of it is closed.
 */
module MaintenanceLock {
  import opened Wrappers

  /** tree: the process tree; files: the open descriptions of the lock file that it has descriptors of. */
  datatype Process = Process(tree: nat, files: set<nat>)

  /** openedBy: the tree that opened each description; acquired: those whose lock call succeeded. */
  datatype World = World(processes: map<nat, Process>, openedBy: map<nat, nat>, acquired: set<nat>, holder: Option<nat>)

  const QUIET := World(map[], map[], {}, None)

  datatype Action =
    | Start(process: nat)
    | Open(process: nat, file: nat)
    | TryLock(process: nat, file: nat)
    | Spawn(process: nat, child: nat, passed: set<nat>)
    | Close(process: nat, file: nat)
    | Kill(process: nat)
    | Delete(process: nat, file: nat)

  predicate HasOpen(w: World, p: nat, f: nat) { p in w.processes && f in w.processes[p].files }

  predicate OpenAnywhere(w: World, f: nat) { exists p :: p in w.processes && f in w.processes[p].files }

  /** A release is deleted only inside the lock's block: by a process that acquired it and has it open. */
  predicate Can(w: World, a: Action) {
    match a
    case Start(p) => p !in w.processes && forall q | q in w.processes :: w.processes[q].tree != p
    case Open(p, f) => p in w.processes && f !in w.openedBy
    case TryLock(p, f) => HasOpen(w, p, f)
    case Spawn(p, c, passed) => p in w.processes && c !in w.processes && passed <= w.processes[p].files
    case Close(p, f) => HasOpen(w, p, f)
    case Kill(p) => p in w.processes
    case Delete(p, f) => HasOpen(w, p, f) && f in w.acquired
  }

  /** The kernel drops a lock whose description nobody has open any more. */
  function Settled(w: World): World {
    if w.holder.Some? && !OpenAnywhere(w, w.holder.value) then w.(holder := None) else w
  }

  /** flock without waiting: it succeeds unless another description holds the lock. */
  predicate LockFree(w: World, f: nat) { w.holder.None? || w.holder == Some(f) }

  function After(w: World, a: Action): World
    requires Can(w, a)
  {
    match a
    case Start(p) => w.(processes := w.processes[p := Process(p, {})])
    case Open(p, f) =>
      w.(processes := w.processes[p := w.processes[p].(files := w.processes[p].files + {f})],
         openedBy := w.openedBy[f := w.processes[p].tree])
    case TryLock(p, f) => if LockFree(w, f) then w.(holder := Some(f), acquired := w.acquired + {f}) else w
    case Spawn(p, c, passed) => w.(processes := w.processes[c := Process(w.processes[p].tree, passed)])
    case Close(p, f) => Settled(w.(processes := w.processes[p := w.processes[p].(files := w.processes[p].files - {f})]))
    case Kill(p) => Settled(w.(processes := w.processes - {p}))
    case Delete(_, _) => w
  }

  ghost predicate Inv(w: World) {
    && (forall p, f | HasOpen(w, p, f) :: f in w.openedBy && w.openedBy[f] == w.processes[p].tree)
    && (forall p, f | HasOpen(w, p, f) && f in w.acquired :: w.holder == Some(f))
    && (w.holder.Some? ==> w.holder.value in w.acquired && OpenAnywhere(w, w.holder.value))
    && (forall f | f in w.acquired :: f in w.openedBy)
  }

  lemma SettledKeeps(w: World)
    requires forall p, f | HasOpen(w, p, f) :: f in w.openedBy && w.openedBy[f] == w.processes[p].tree
    requires forall p, f | HasOpen(w, p, f) && f in w.acquired :: w.holder == Some(f)
    requires w.holder.Some? ==> w.holder.value in w.acquired
    requires forall f | f in w.acquired :: f in w.openedBy
    ensures Inv(Settled(w))
  {
    var s := Settled(w);
    assert forall p, f :: HasOpen(s, p, f) <==> HasOpen(w, p, f);
    assert forall p, f | HasOpen(w, p, f) :: OpenAnywhere(w, f);
    if s.holder.Some? {
      var p :| p in w.processes && w.holder.value in w.processes[p].files;
      assert p in s.processes && s.holder.value in s.processes[p].files;
    }
  }

  lemma StepKeepsInv(w: World, a: Action)
    requires Inv(w) && Can(w, a)
    ensures Inv(After(w, a))
  {
    match a
    case Close(p, f) =>
      var x := w.(processes := w.processes[p := w.processes[p].(files := w.processes[p].files - {f})]);
      assert forall q, g | HasOpen(x, q, g) :: HasOpen(w, q, g);
      SettledKeeps(x);
    case Kill(p) =>
      var x := w.(processes := w.processes - {p});
      assert forall q, g | HasOpen(x, q, g) :: HasOpen(w, q, g);
      SettledKeeps(x);
    case Delete(_, _) =>
    case TryLock(p, f) => TryLockKeeps(w, p, f);
    case Start(p) => GrowthKeeps(w, a);
    case Open(p, f) => GrowthKeeps(w, a);
    case Spawn(p, c, passed) => GrowthKeeps(w, a);
  }

  lemma TryLockKeeps(w: World, p: nat, f: nat)
    requires Inv(w) && HasOpen(w, p, f)
    ensures Inv(After(w, TryLock(p, f)))
  {
    var x := After(w, TryLock(p, f));
    assert forall q, g :: HasOpen(x, q, g) <==> HasOpen(w, q, g);
    assert forall q, g | HasOpen(w, q, g) && g in w.acquired :: w.holder == Some(g);
    assert f in x.processes[p].files;
    if !LockFree(w, f) {
      assert OpenAnywhere(w, w.holder.value);
      var q :| q in w.processes && w.holder.value in w.processes[q].files;
      assert q in x.processes && x.holder.value in x.processes[q].files;
    }
  }

  lemma GrowthKeeps(w: World, a: Action)
    requires Inv(w) && Can(w, a) && (a.Start? || a.Open? || a.Spawn?)
    ensures Inv(After(w, a))
  {
    var x := After(w, a);
    forall q, g | HasOpen(x, q, g)
      ensures g in x.openedBy && x.openedBy[g] == x.processes[q].tree
      ensures g in x.acquired ==> x.holder == Some(g)
    {
      assert HasOpen(w, q, g) || (a.Open? && q == a.process && g == a.file)
             || (a.Spawn? && q == a.child && HasOpen(w, a.process, g));
    }
    if w.holder.Some? {
      var q :| q in w.processes && w.holder.value in w.processes[q].files;
      assert q in x.processes && x.holder.value in x.processes[q].files;
    }
  }

  ghost predicate Run(worlds: seq<World>, actions: seq<Action>) {
    && |worlds| == |actions| + 1 && worlds[0] == QUIET
    && forall i | 0 <= i < |actions| :: Can(worlds[i], actions[i]) && worlds[i + 1] == After(worlds[i], actions[i])
  }

  lemma {:induction false} RunKeepsInv(worlds: seq<World>, actions: seq<Action>, i: nat)
    requires Run(worlds, actions) && i < |worlds|
    ensures Inv(worlds[i])
  {
    hide Can, After;
    if i > 0 {
      RunKeepsInv(worlds, actions, i - 1);
      assert worlds[i - 1 + 1] == After(worlds[i - 1], actions[i - 1]) && Can(worlds[i - 1], actions[i - 1]);
      StepKeepsInv(worlds[i - 1], actions[i - 1]);
    }
  }

  /**
   Whenever a release is deleted, every process that still has an acquired lock descriptor,
   inherited ones included and whoever was killed before, belongs to the deleting process tree.
   */
  lemma NoDeletionUnderAnotherTree(worlds: seq<World>, actions: seq<Action>, i: nat, q: nat, g: nat)
    requires Run(worlds, actions) && i < |actions| && actions[i].Delete?
    requires HasOpen(worlds[i], q, g) && g in worlds[i].acquired
    ensures g == actions[i].file
    ensures worlds[i].processes[q].tree == worlds[i].processes[actions[i].process].tree
  {
    RunKeepsInv(worlds, actions, i);
    assert Can(worlds[i], actions[i]);
    assert HasOpen(worlds[i], actions[i].process, actions[i].file);
  }

  /** The lock can be taken if and only if no process has another acquired descriptor open. */
  lemma FreeExactlyWhen(worlds: seq<World>, actions: seq<Action>, i: nat, f: nat)
    requires Run(worlds, actions) && i < |worlds|
    ensures LockFree(worlds[i], f) <==>
            forall q, g | HasOpen(worlds[i], q, g) && g in worlds[i].acquired :: g == f
  {
    RunKeepsInv(worlds, actions, i);
    var w := worlds[i];
    if w.holder.Some? {
      var q :| q in w.processes && w.holder.value in w.processes[q].files;
      assert HasOpen(w, q, w.holder.value);
    }
  }

  /** After every process of the holding tree is gone, killed or finished, the lock is free. */
  lemma DeadTreeFreesLock(worlds: seq<World>, actions: seq<Action>, i: nat, f: nat)
    requires Run(worlds, actions) && i < |worlds|
    requires f in worlds[i].openedBy
    requires forall q | q in worlds[i].processes :: worlds[i].processes[q].tree != worlds[i].openedBy[f]
    ensures worlds[i].holder != Some(f)
  {
    RunKeepsInv(worlds, actions, i);
    var w := worlds[i];
    if w.holder == Some(f) {
      var q :| q in w.processes && f in w.processes[q].files;
      assert HasOpen(w, q, f);
    }
  }

  // ----- The two programs -----

  const BUSY := 75

  class Machine {
    var world: World

    ghost predicate Valid()
      reads this
    {
      Inv(world)
    }

    constructor ()
      ensures Valid() && world == QUIET
    {
      world := QUIET;
    }

    method Do(a: Action)
      requires Valid() && Can(world, a)
      modifies this
      ensures Valid() && world == After(old(world), a)
    {
      StepKeepsInv(world, a);
      world := After(world, a);
    }

    /** exclusive_lock: on a busy lock the new descriptor is closed again. */
    method ExclusiveLock(p: nat, f: nat) returns (held: bool)
      requires Valid() && Can(world, Open(p, f))
      modifies this
      ensures Valid()
      ensures held <==> old(world).holder.None?
      ensures held ==> HasOpen(world, p, f) && f in world.acquired && world.holder == Some(f)
                       && world.processes == old(world).processes[p :=
                         old(world).processes[p].(files := old(world).processes[p].files + {f})]
      ensures !held ==>
              world.holder == old(world).holder && world.processes == old(world).processes
              && world.acquired == old(world).acquired
    {
      OpenedIsNew(world, p, f);
      Do(Open(p, f));
      held := LockFree(world, f);
      Do(TryLock(p, f));
      if !held {
        HolderStaysOpen(world, p, f);
        Do(Close(p, f));
      }
    }

    /**
     run: the command gets the descriptor, and the supervisor's own closes when the command has
     ended. A background process that the command leaves behind keeps the lock.
     */
    method RunCommand(p: nat, f: nat, child: nat, left: Option<nat>, status: int) returns (code: int)
      requires Valid() && Can(world, Open(p, f)) && child !in world.processes
      requires left.Some? ==> left.value != child && left.value !in world.processes
      modifies this
      ensures Valid()
      ensures old(world).holder.Some? ==>
              code == BUSY && world.processes == old(world).processes && world.holder == old(world).holder
      ensures old(world).holder.None? ==> code == status && world.holder == if left.Some? then Some(f) else None
    {
      OpenedIsNew(world, p, f);
      var held := ExclusiveLock(p, f);
      if !held { return BUSY; }
      Do(Spawn(p, child, {f}));
      if left.Some? { Do(Spawn(child, left.value, {f})); }
      Do(Kill(child));
      Closing(world, p, f, left);
      Do(Close(p, f));
      return status;
    }
  }

  /** Closing the supervisor's descriptor frees the lock unless a process left behind has it open. */
  lemma Closing(w: World, p: nat, f: nat, left: Option<nat>)
    requires Inv(w) && HasOpen(w, p, f)
    requires f in w.acquired && left != Some(p)
    requires forall q | HasOpen(w, q, f) :: q == p || left == Some(q)
    requires left.Some? ==> HasOpen(w, left.value, f)
    ensures After(w, Close(p, f)).holder == if left.Some? then Some(f) else None
  {
    var x := w.(processes := w.processes[p := w.processes[p].(files := w.processes[p].files - {f})]);
    assert w.holder == Some(f);
    if left.Some? {
      assert left.value in x.processes && f in x.processes[left.value].files;
    } else {
      forall q | q in x.processes ensures f !in x.processes[q].files {
        assert f in x.processes[q].files ==> HasOpen(w, q, f);
      }
    }
  }

  lemma OpenedIsNew(w: World, p: nat, f: nat)
    requires Inv(w) && Can(w, Open(p, f))
    ensures forall q :: !HasOpen(w, q, f)
    ensures w.holder != Some(f)
  {
    assert forall q | HasOpen(w, q, f) :: f in w.openedBy;
  }

  lemma HolderStaysOpen(w: World, p: nat, f: nat)
    requires Inv(w) && w.holder.Some? && w.holder != Some(f) && HasOpen(w, p, f)
    ensures After(w, Close(p, f)).holder == w.holder
  {
    var x := w.(processes := w.processes[p := w.processes[p].(files := w.processes[p].files - {f})]);
    var q :| q in w.processes && w.holder.value in w.processes[q].files;
    assert q in x.processes && x.holder.value in x.processes[q].files;
  }
}

/**
 The filesystem store itself: one publication, chunk by chunk, as a sequence of protocol steps.
 */
module ArtifactStore {
  import opened Digests
  import opened StoreProtocol
  import opened StoreRuns
  import opened Wrappers

  /** The read size of copies and digests. */
  const CHUNK: nat := 1024 * 1024

  datatype Refusal = InvalidSource | Conflict

  /** The state that a list of steps leads to, when each is possible. */
  ghost function Outcome(actions: seq<Action>): Option<State> {
    if actions == [] then Some(BLANK)
    else
      match Outcome(actions[..|actions| - 1])
      case None => None
      case Some(s) => if Can(s, actions[|actions| - 1]) then Some(After(s, actions[|actions| - 1])) else None
  }

  lemma {:induction false} OutcomeHolds(actions: seq<Action>)
    requires Outcome(actions).Some?
    ensures Inv(Outcome(actions).value)
  {
    hide Inv, Can, After;
    if actions == [] {
      BlankHolds();
    } else {
      OutcomeHolds(actions[..|actions| - 1]);
      StepKeepsInv(Outcome(actions[..|actions| - 1]).value, actions[|actions| - 1]);
    }
  }

  lemma OutcomeMore(actions: seq<Action>, a: Action)
    requires Outcome(actions).Some? && Can(Outcome(actions).value, a)
    ensures Outcome(actions + [a]) == Some(After(Outcome(actions).value, a))
  {
    hide Can, After;
    assert (actions + [a])[..|actions|] == actions;
  }

  function Min(a: nat, b: nat): nat { if a < b then a else b }

  /** _digest: the digest and the size of a whole stream, read in chunks. */
  method DigestOf(stream: Bytes) returns (digest: Digest, size: nat)
    ensures digest == Sha256(stream) && size == |stream|
  {
    var hashed: Bytes := [];
    size := 0;
    while size < |stream|
      invariant size <= |stream| && hashed == stream[..size]
    {
      var chunk := stream[size..Min(size + CHUNK, |stream|)];
      hashed := hashed + chunk;
      size := size + |chunk|;
    }
    assert stream[..|stream|] == stream;
    digest := Sha256(hashed);
  }

  // ----- What the steps of one undisturbed call amount to -----

  lemma OpenedState(s: State, c: nat, path: string, expected: Digest, source: Bytes)
    requires c !in s.calls
    ensures var t := After(s, Begin(c, path, expected, source));
            && Can(t, Fail(c, true)) && After(t, Fail(c, true)) == s
            && (Sha256(source) == expected ==>
                  Can(t, CheckSource(c))
                  && After(t, CheckSource(c)) == s.(calls := s.calls[c := Call(path, expected, Verified)]))
  {
    assert s.calls[c := Call(path, expected, Opened(source))] - {c} == s.calls;
  }

  lemma LinkedState(s: State, c: nat)
    requires c in s.calls && s.calls[c].place.Checked? && s.calls[c].path !in s.final
    requires TempHolds(s, s.calls[c].place.temp, s.calls[c].expected)
    ensures var (call, n) := (s.calls[c], s.calls[c].place.temp);
            var t := After(s, Link(c));
            && t == s.(final := s.final[call.path := n], linked := s.linked[call.path := call.expected],
                       calls := s.calls[c := call.(place := Linked(n, Published))])
            && Can(t, VerifyFinal(c))
            && After(t, VerifyFinal(c)) == t.(calls := s.calls[c := call.(place := FinalVerified(n, Published))])
  {}

  lemma ClosedState(s: State, c: nat)
    requires c in s.calls && s.calls[c].place.FinalVerified? && s.calls[c].path in s.final
    ensures var (call, n) := (s.calls[c], s.calls[c].place.temp);
            var t := After(s, SyncParent(c));
            && t == s.(durable := s.durable[call.path := s.final[call.path]],
                       calls := s.calls[c := call.(place := ParentSynced(n, call.place.status))])
            && Can(t, Finish(c))
            && After(t, Finish(c)) == t.(calls := s.calls - {c}, staging := s.staging - {n},
                                         reports := s.reports + [Report(call.path, call.expected, call.place.status)])
  {
    var call := s.calls[c];
    assert s.calls[c := call.(place := ParentSynced(call.place.temp, call.place.status))] - {c} == s.calls - {c};
  }

  /** All four steps of an installation, and that each is possible. */
  lemma InstalledState(s: State, c: nat)
    requires c in s.calls && s.calls[c].place.Checked? && s.calls[c].path !in s.final
    requires TempHolds(s, s.calls[c].place.temp, s.calls[c].expected)
    ensures var (call, n) := (s.calls[c], s.calls[c].place.temp);
            var a := After(s, Link(c));
            && Can(a, VerifyFinal(c))
            && var b := After(a, VerifyFinal(c));
            && Can(b, SyncParent(c)) && Can(After(b, SyncParent(c)), Finish(c))
            && var t := After(After(b, SyncParent(c)), Finish(c));
            && Durable(t, call.path, call.expected)
            && t.final == s.final[call.path := n] && t.calls == s.calls - {c}
            && t.staging == s.staging - {n} && t.inodes == s.inodes
  {
    LinkedState(s, c);
    hide Can, After, Matches;
    var b := After(After(s, Link(c)), VerifyFinal(c));
    ClosedState(b, c);
    assert b.calls - {c} == s.calls - {c};
    VerifiedCanSync(b, c);
    WholeFile(b, s.calls[c].path, s.calls[c].expected, s.calls[c].place.temp);
    var t := After(After(b, SyncParent(c)), Finish(c));
    WholeFile(t, s.calls[c].path, s.calls[c].expected, s.calls[c].place.temp);
  }

  lemma VerifiedCanSync(s: State, c: nat)
    requires c in s.calls && s.calls[c].place.FinalVerified?
    ensures Can(s, SyncParent(c))
  {}

  lemma WholeFile(s: State, path: string, d: Digest, n: nat)
    requires path in s.final && s.final[path] == n && TempHolds(s, n, d)
    ensures Matches(s, path, d)
  {}

  /** The three steps that confirm an existing artifact. */
  lemma ConfirmedState(s: State, c: nat)
    requires c in s.calls && s.calls[c].place.Verified? && Matches(s, s.calls[c].path, s.calls[c].expected)
    ensures var call, n := s.calls[c], s.final[s.calls[c].path];
            var a := After(s, LookFinal(c));
            && Can(s, LookFinal(c)) && Can(a, SyncFound(c))
            && var b := After(a, SyncFound(c));
            && Can(b, SyncFoundParent(c))
            && var t := After(b, SyncFoundParent(c));
            && Durable(t, call.path, call.expected)
            && t.final == s.final && t.staging == s.staging && t.calls == s.calls - {c}
            && t.inodes == s.inodes[n := s.inodes[n].(synced := true)]
  {
    var a := After(s, LookFinal(c));
    var b := After(a, SyncFound(c));
    assert b.calls - {c} == s.calls - {c};
  }

  /** A missing artifact gets an empty private file. */
  lemma CreatedState(s: State, c: nat, n: nat)
    requires c in s.calls && s.calls[c].place.Verified? && s.calls[c].path !in s.final && n !in s.inodes
    ensures Can(s, LookMissing(c)) && Can(After(s, LookMissing(c)), CreateTemp(c, n))
    ensures After(After(s, LookMissing(c)), CreateTemp(c, n)) == s.(
              inodes := s.inodes[n := Inode([], false)], staging := s.staging + {n},
              calls := s.calls[c := s.calls[c].(place := Copying(n))])
  {}

  /** The filled file is synced, and its bytes hash to the digest. */
  lemma StagedState(s: State, c: nat, n: nat, source: Bytes)
    requires c in s.calls && s.calls[c].place == Copying(n) && Sha256(source) == s.calls[c].expected
    requires n in s.inodes && s.inodes[n] == Inode(source, false)
    ensures Can(s, SyncTemp(c)) && Can(After(s, SyncTemp(c)), Rehash(c))
    ensures After(s, SyncTemp(c)).inodes == s.inodes[n := Inode(source, true)]
    ensures After(After(s, SyncTemp(c)), Rehash(c)) == s.(
              inodes := s.inodes[n := Inode(source, true)], calls := s.calls[c := s.calls[c].(place := Checked(n))])
  {}

  lemma FailedState(s: State, c: nat)
    requires c in s.calls && s.calls[c].place.Verified?
    ensures Can(s, Fail(c, true)) && After(s, Fail(c, true)) == s.(calls := s.calls - {c})
  {}

  class FilesystemArtifactStore {
    var world: State
    ghost var done: seq<Action>

    ghost predicate Valid()
      reads this
    {
      Outcome(done) == Some(world) && Inv(world)
    }

    constructor ()
      ensures Valid() && world == BLANK
    {
      world, done := BLANK, [];
      new;
      BlankHolds();
    }

    method Do(a: Action)
      requires Valid() && Can(world, a)
      modifies this
      ensures Valid() && world == After(old(world), a) && old(done) <= done
    {
      hide Can, After, Inv, Outcome;
      OutcomeMore(done, a);
      StepKeepsInv(world, a);
      world, done := After(world, a), done + [a];
    }

    /** copyfileobj: the temporary file receives the source chunk by chunk. */
    method Copy(c: nat, source: Bytes)
      requires Valid() && c in world.calls && world.calls[c].place.Copying?
      requires world.calls[c].place.temp in world.inodes && world.inodes[world.calls[c].place.temp] == Inode([], false)
      modifies this
      ensures Valid() && old(done) <= done
      ensures world == old(world).(inodes := old(world).inodes[old(world).calls[c].place.temp := Inode(source, false)])
    {
      hide Inv, Outcome;
      var n := world.calls[c].place.temp;
      var pos := 0;
      while pos < |source|
        invariant Valid() && old(done) <= done && pos <= |source|
        invariant world == old(world).(inodes := old(world).inodes[n := Inode(source[..pos], false)])
      {
        var chunk := source[pos..Min(pos + CHUNK, |source|)];
        assert source[..pos] + chunk == source[..pos + |chunk|];
        Do(CopyChunk(c, chunk));
        pos := pos + |chunk|;
      }
      assert source[..|source|] == source;
    }

    /** An existing artifact: compare its bytes, then make it durable before answering. */
    method ConfirmExisting(c: nat) returns (r: Result<Status, Refusal>)
      requires Valid() && c in world.calls && world.calls[c].place.Verified? && world.calls[c].path in world.final
      modifies this
      ensures Valid() && old(done) <= done
      ensures var call := old(world).calls[c];
              r == if Matches(old(world), call.path, call.expected) then Ok(AlreadyPresent) else Err(Conflict)
      ensures r.Ok? ==> Durable(world, old(world).calls[c].path, old(world).calls[c].expected)
      ensures world.final == old(world).final && world.calls == old(world).calls - {c}
              && world.staging == old(world).staging
      ensures SameContents(old(world), world)
    {
      hide Inv, Outcome, After, Durable, Can;
      var path, expected := world.calls[c].path, world.calls[c].expected;
      EntryPresent(world, path);
      FailedState(world, c);
      var actual, _ := DigestOf(world.inodes[world.final[path]].content);
      if actual != expected {
        Do(Fail(c, true));
        return Err(Conflict);
      }
      ConfirmedState(world, c);
      Do(LookFinal(c));
      Do(SyncFound(c));
      Do(SyncFoundParent(c));
      return Ok(AlreadyPresent);
    }

    /** The source must match the digest before the store is touched. */
    method Open(c: nat, path: string, source: Bytes, expected: Digest) returns (ok: bool)
      requires Valid() && c !in world.calls
      modifies this
      ensures Valid() && old(done) <= done
      ensures ok <==> Sha256(source) == expected
      ensures world == if ok then old(world).(calls := old(world).calls[c := Call(path, expected, Verified)])
              else old(world)
    {
      hide Inv, Outcome, CallHolds, After;
      var actual, _ := DigestOf(source);
      OpenedState(world, c, path, expected, source);
      Do(Begin(c, path, expected, source));
      ok := actual == expected;
      if ok { Do(CheckSource(c)); } else { Do(Fail(c, true)); }
    }

    /** Copy into a private file, sync it and hash it again. */
    method Stage(c: nat, n: nat, source: Bytes)
      requires Valid() && c in world.calls && world.calls[c].place.Verified?
      requires world.calls[c].path !in world.final && Sha256(source) == world.calls[c].expected && n !in world.inodes
      modifies this
      ensures Valid() && old(done) <= done
      ensures world == old(world).(
                inodes := old(world).inodes[n := Inode(source, true)], staging := old(world).staging + {n},
                calls := old(world).calls[c := old(world).calls[c].(place := Checked(n))])
    {
      hide Inv, Outcome, Can, After;
      CreatedState(world, c, n);
      Do(LookMissing(c));
      Do(CreateTemp(c, n));
      Copy(c, source);
      StagedState(world, c, n, source);
      Do(SyncTemp(c));
      var copied, _ := DigestOf(world.inodes[n].content);
      Do(Rehash(c));
    }

    /** Link without replacing, verify the final bytes, sync the directory, remove the private name. */
    method Install(c: nat)
      requires Valid() && c in world.calls && world.calls[c].place.Checked? && world.calls[c].path !in world.final
      requires TempHolds(world, world.calls[c].place.temp, world.calls[c].expected)
      modifies this
      ensures Valid() && old(done) <= done
      ensures var (call, n) := (old(world).calls[c], old(world).calls[c].place.temp);
              && Durable(world, call.path, call.expected)
              && world.final == old(world).final[call.path := n]
              && world.calls == old(world).calls - {c} && world.staging == old(world).staging - {n}
              && world.inodes == old(world).inodes
    {
      hide Inv, Outcome, After, Durable, Matches, TempHolds;
      InstalledState(world, c);
      assert Can(world, Link(c));
      hide Can;
      Do(Link(c));
      Do(VerifyFinal(c));
      Do(SyncParent(c));
      Do(Finish(c));
    }

    method Publish(c: nat, n: nat, path: string, source: Bytes, expected: Digest) returns (r: Result<Status, Refusal>)
      requires Valid() && c !in world.calls && n !in world.inodes && n !in world.staging
      modifies this
      ensures Valid() && old(done) <= done
      ensures r == if Sha256(source) != expected then Err(InvalidSource)
                   else if path !in old(world).final then Ok(Published)
                   else if Matches(old(world), path, expected) then Ok(AlreadyPresent)
                   else Err(Conflict)
      ensures r.Ok? ==> Durable(world, path, expected)
      ensures world.final == if r == Ok(Published) then old(world).final[path := n] else old(world).final
      ensures world.calls == old(world).calls && world.staging == old(world).staging
      ensures SameContents(old(world), world)
    {
      hide Inv, Outcome, CallHolds, Can, After, Durable;
      var ok := Open(c, path, source, expected);
      if !ok { return Err(InvalidSource); }
      if path in world.final {
        r := ConfirmExisting(c);
      } else {
        Stage(c, n, source);
        Install(c);
        r := Ok(Published);
      }
    }
  }

  ghost predicate SameContents(s: State, t: State) {
    forall m | m in s.inodes :: m in t.inodes && t.inodes[m].content == s.inodes[m].content
  }

  lemma EntryPresent(s: State, path: string)
    requires Inv(s) && path in s.final
    ensures s.final[path] in s.inodes
  {
    assert EntryHolds(s, path);
  }
}

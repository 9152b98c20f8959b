/**
 The artifact store as a protocol: any number of publisher calls interleave their file system
 steps, each may fail or be killed at any point, and the machine may crash at any point.
 */
module StoreProtocol {
  import opened Digests

  /** synced: what a crash would leave of the file is its content. */
  datatype Inode = Inode(content: Bytes, synced: bool)

  datatype Status = Published | AlreadyPresent

  /** Where a call stands, and the temporary file that it owns. */
  datatype Place =
    | Opened(source: Bytes)
    | Verified
    | Missing
    | Found
    | FoundSynced
    | Copying(temp: nat)
    | TempSynced(temp: nat)
    | Checked(temp: nat)
    | Linked(temp: nat, status: Status)
    | FinalVerified(temp: nat, status: Status)
    | ParentSynced(temp: nat, status: Status)

  datatype Call = Call(path: string, expected: Digest, place: Place)

  /** A publication that was reported to its caller. */
  datatype Report = Report(path: string, digest: Digest, status: Status)

  /**
   final: the directory entries of the store; durable: those of them that a crash keeps.
   linked: the digest for which each entry was made. staging: inodes named in the staging
   directory. reports: every success that was ever reported.
   */
  datatype State = State(
    inodes: map<nat, Inode>, final: map<string, nat>, durable: map<string, nat>, linked: map<string, Digest>,
    staging: set<nat>, calls: map<nat, Call>, reports: seq<Report>)

  const BLANK := State(map[], map[], map[], map[], {}, map[], [])

  datatype Action =
    | Begin(call: nat, path: string, expected: Digest, source: Bytes)
    | CheckSource(call: nat)
    | LookFinal(call: nat)
    | SyncFound(call: nat)
    | SyncFoundParent(call: nat)
    | LookMissing(call: nat)
    | CreateTemp(call: nat, inode: nat)
    | CopyChunk(call: nat, chunk: Bytes)
    | SyncTemp(call: nat)
    | Rehash(call: nat)
    | Link(call: nat)
    | VerifyFinal(call: nat)
    | SyncParent(call: nat)
    | Finish(call: nat)
    | Fail(call: nat, cleaned: bool)
    | Crash(entries: map<string, nat>, contents: map<nat, Bytes>, temps: set<nat>)

  // ----- Steps -----

  predicate HasTemp(p: Place) {
    p.Copying? || p.TempSynced? || p.Checked? || p.Linked? || p.FinalVerified? || p.ParentSynced?
  }

  function Moved(s: State, c: nat, p: Place): State
    requires c in s.calls
  {
    s.(calls := s.calls[c := s.calls[c].(place := p)])
  }

  function Ended(s: State, c: nat): State { s.(calls := s.calls - {c}) }

  function Reported(s: State, c: nat, status: Status): State
    requires c in s.calls
  {
    Ended(s, c).(reports := s.reports + [Report(s.calls[c].path, s.calls[c].expected, status)])
  }

  /** The final path exists and its bytes hash to the digest. */
  predicate Matches(s: State, path: string, d: Digest) {
    path in s.final && s.final[path] in s.inodes && Sha256(s.inodes[s.final[path]].content) == d
  }

  predicate Extends<K(==), V(==)>(a: map<K, V>, b: map<K, V>) { forall k | k in a :: k in b && b[k] == a[k] }

  /**
   Copying may append anything: the source may have changed since it was checked. A crash keeps
   the synced contents and the durable entries, and of the rest whatever it likes.
   */
  predicate Can(s: State, a: Action) {
    match a
    case Begin(c, _, _, _) => c !in s.calls
    case CheckSource(c) =>
      c in s.calls && s.calls[c].place.Opened? && Sha256(s.calls[c].place.source) == s.calls[c].expected
    case LookFinal(c) => c in s.calls && s.calls[c].place.Verified? && Matches(s, s.calls[c].path, s.calls[c].expected)
    case SyncFound(c) =>
      && c in s.calls && s.calls[c].place.Found? && s.calls[c].path in s.final
      && s.final[s.calls[c].path] in s.inodes
    case SyncFoundParent(c) => c in s.calls && s.calls[c].place.FoundSynced?
    case LookMissing(c) => c in s.calls && s.calls[c].place.Verified? && s.calls[c].path !in s.final
    case CreateTemp(c, n) => c in s.calls && s.calls[c].place.Missing? && n !in s.inodes
    case CopyChunk(c, _) => c in s.calls && s.calls[c].place.Copying? && s.calls[c].place.temp in s.inodes
    case SyncTemp(c) => c in s.calls && s.calls[c].place.Copying? && s.calls[c].place.temp in s.inodes
    case Rehash(c) => c in s.calls && s.calls[c].place.TempSynced? && s.calls[c].place.temp in s.inodes
                      && Sha256(s.inodes[s.calls[c].place.temp].content) == s.calls[c].expected
    case Link(c) => c in s.calls && s.calls[c].place.Checked?
    case VerifyFinal(c) => c in s.calls && s.calls[c].place.Linked? && Matches(s, s.calls[c].path, s.calls[c].expected)
    case SyncParent(c) => c in s.calls && s.calls[c].place.FinalVerified?
    case Finish(c) => c in s.calls && s.calls[c].place.ParentSynced?
    case Fail(c, _) => c in s.calls
    case Crash(entries, contents, temps) =>
      && Extends(s.durable, entries) && Extends(entries, s.final)
      && contents.Keys == s.inodes.Keys && temps <= s.staging
      && forall n | n in s.inodes && s.inodes[n].synced :: contents[n] == s.inodes[n].content
  }

  function SyncedFile(s: State, n: nat): State
    requires n in s.inodes
  {
    s.(inodes := s.inodes[n := s.inodes[n].(synced := true)])
  }

  /** fsync of the version's own directory, whose only entry is the artifact. */
  function SyncedParent(s: State, path: string): State {
    if path in s.final then s.(durable := s.durable[path := s.final[path]]) else s
  }

  function After(s: State, a: Action): State
    requires Can(s, a)
  {
    match a
    case Begin(c, path, expected, source) => s.(calls := s.calls[c := Call(path, expected, Opened(source))])
    case CheckSource(c) => Moved(s, c, Verified)
    case LookFinal(c) => Moved(s, c, Found)
    case SyncFound(c) => Moved(SyncedFile(s, s.final[s.calls[c].path]), c, FoundSynced)
    case SyncFoundParent(c) => Reported(SyncedParent(s, s.calls[c].path), c, AlreadyPresent)
    case LookMissing(c) => Moved(s, c, Missing)
    case CreateTemp(c, n) =>
      Moved(s, c, Copying(n)).(inodes := s.inodes[n := Inode([], false)], staging := s.staging + {n})
    case CopyChunk(c, chunk) =>
      var n := s.calls[c].place.temp;
      s.(inodes := s.inodes[n := Inode(s.inodes[n].content + chunk, false)])
    case SyncTemp(c) => Moved(SyncedFile(s, s.calls[c].place.temp), c, TempSynced(s.calls[c].place.temp))
    case Rehash(c) => Moved(s, c, Checked(s.calls[c].place.temp))
    case Link(c) =>
      var (path, n) := (s.calls[c].path, s.calls[c].place.temp);
      if path in s.final then Moved(s, c, Linked(n, AlreadyPresent))
      else
        Moved(s, c, Linked(n, Published))
        .(final := s.final[path := n], linked := s.linked[path := s.calls[c].expected])
    case VerifyFinal(c) => Moved(s, c, FinalVerified(s.calls[c].place.temp, s.calls[c].place.status))
    case SyncParent(c) =>
      Moved(SyncedParent(s, s.calls[c].path), c, ParentSynced(s.calls[c].place.temp, s.calls[c].place.status))
    case Finish(c) =>
      Reported(s, c, s.calls[c].place.status).(staging := s.staging - {s.calls[c].place.temp})
    case Fail(c, cleaned) =>
      if cleaned && HasTemp(s.calls[c].place)
      then Ended(s, c).(staging := s.staging - {s.calls[c].place.temp}) else Ended(s, c)
    case Crash(entries, contents, temps) =>
      State(map n | n in contents :: Inode(contents[n], true), entries, entries,
            map p | p in entries && p in s.linked :: s.linked[p], temps, map[], s.reports)
  }

  // ----- The invariant -----

  /** Every visible artifact is whole and synced: its bytes hash to the digest it was linked for. */
  ghost predicate EntryHolds(s: State, p: string) {
    && p in s.linked && Matches(s, p, s.linked[p])
    && s.inodes[s.final[p]].synced
  }

  ghost predicate FilesHold(s: State) {
    && (forall p | p in s.final :: EntryHolds(s, p))
    && Extends(s.durable, s.final)
  }

  predicate TempHolds(s: State, n: nat, d: Digest) {
    n in s.inodes && s.inodes[n].synced && Sha256(s.inodes[n].content) == d
  }

  predicate NotLinked(s: State, n: nat) { forall p | p in s.final :: s.final[p] != n }

  ghost predicate CallHolds(s: State, c: Call) {
    match c.place
    case Opened(_) => true
    case Verified => true
    case Missing => true
    case Found => Matches(s, c.path, c.expected)
    case FoundSynced => Matches(s, c.path, c.expected)
    case Copying(n) => n in s.inodes && NotLinked(s, n)
    case TempSynced(n) => n in s.inodes && s.inodes[n].synced && NotLinked(s, n)
    case Checked(n) => TempHolds(s, n, c.expected) && NotLinked(s, n)
    case Linked(n, _) => n in s.inodes && c.path in s.final
    case FinalVerified(n, _) => n in s.inodes && Matches(s, c.path, c.expected)
    case ParentSynced(n, _) => n in s.inodes && Matches(s, c.path, c.expected) && c.path in s.durable
  }

  /** Temporary files are private: no two calls own the same one. */
  ghost predicate TempsPrivate(s: State) {
    forall c, d | c in s.calls && d in s.calls && c != d && HasTemp(s.calls[c].place) && HasTemp(s.calls[d].place) ::
      s.calls[c].place.temp != s.calls[d].place.temp
  }

  ghost predicate ReportHolds(s: State, r: Report) { r.path in s.durable && Matches(s, r.path, r.digest) }

  /** The call has linked the artifact itself and will report it as published. */
  predicate Claims(c: Call) {
    (c.place.Linked? || c.place.FinalVerified? || c.place.ParentSynced?) && c.place.status == Published
  }

  ghost predicate ClaimsUnique(s: State) {
    && (forall c, d | c in s.calls && d in s.calls && c != d && Claims(s.calls[c]) && Claims(s.calls[d]) ::
          s.calls[c].path != s.calls[d].path)
    && (forall i, c | 0 <= i < |s.reports| && s.reports[i].status == Published && c in s.calls && Claims(s.calls[c]) ::
          s.reports[i].path != s.calls[c].path)
    && (forall i, j | 0 <= i < j < |s.reports|
                      && s.reports[i].status == Published && s.reports[j].status == Published ::
          s.reports[i].path != s.reports[j].path)
  }

  ghost predicate Inv(s: State) {
    && FilesHold(s)
    && (forall c | c in s.calls :: CallHolds(s, s.calls[c]))
    && TempsPrivate(s)
    && (forall r | r in s.reports :: ReportHolds(s, r))
    && ClaimsUnique(s)
  }

  // ----- Preservation -----

  /** Entries, contents, syncedness and durability only grow: what every step but a crash guarantees. */
  ghost predicate Grows(s: State, t: State) {
    && Extends(s.final, t.final) && Extends(s.durable, t.durable)
    && (forall p | p in s.final :: s.final[p] in s.inodes && s.final[p] in t.inodes
                                   && t.inodes[s.final[p]].content == s.inodes[s.final[p]].content)
  }

  /** The temporary files of all calls but one are left alone, and none of them gets linked. */
  ghost predicate SparesTemps(s: State, t: State, c: nat) {
    forall d | d in s.calls && d != c && HasTemp(s.calls[d].place) ::
      var n := s.calls[d].place.temp;
      n in s.inodes ==> n in t.inodes && t.inodes[n] == s.inodes[n] && (NotLinked(s, n) ==> NotLinked(t, n))
  }

  lemma OtherCallHolds(s: State, t: State, c: nat, d: nat)
    requires d in s.calls && d != c && CallHolds(s, s.calls[d]) && Grows(s, t) && SparesTemps(s, t, c)
    ensures CallHolds(t, s.calls[d])
  {}

  /** A step of one call: the files grow, every other call and every report is untouched by it. */
  ghost predicate StepOf(s: State, t: State, c: nat) {
    Grows(s, t) && SparesTemps(s, t, c) && OthersWait(s, t, c)
  }

  ghost predicate OthersWait(s: State, t: State, c: nat) {
    forall d | d != c :: (d in t.calls <==> d in s.calls) && (d in s.calls ==> t.calls[d] == s.calls[d])
  }

  lemma StepKeepsCalls(s: State, t: State, c: nat)
    requires Inv(s) && StepOf(s, t, c) && (c in t.calls ==> CallHolds(t, t.calls[c]))
    ensures forall d | d in t.calls :: CallHolds(t, t.calls[d])
  {
    forall d | d in t.calls ensures CallHolds(t, t.calls[d]) {
      if d != c { OtherCallHolds(s, t, c, d); }
    }
  }

  lemma StepKeepsReports(s: State, t: State, r: Report)
    requires Grows(s, t) && ReportHolds(s, r)
    ensures ReportHolds(t, r)
  {}

  lemma OwnTempSpares(s: State, c: nat)
    requires Inv(s) && c in s.calls && HasTemp(s.calls[c].place)
    ensures forall d | d in s.calls && d != c && HasTemp(s.calls[d].place) ::
            s.calls[d].place.temp != s.calls[c].place.temp
    ensures s.calls[c].place.temp in s.inodes
  {
    assert CallHolds(s, s.calls[c]);
  }

  lemma StepWaits(s: State, a: Action)
    requires Can(s, a) && !a.Crash?
    ensures OthersWait(s, After(s, a), a.call)
  {
    hide Matches, Extends;
  }

  /** The inodes that a step writes: its own temporary file, a new one, or an fsync of the found artifact. */
  lemma StepWrites(s: State, a: Action)
    requires Can(s, a) && !a.Crash?
    ensures forall n | n in s.inodes ::
              && n in After(s, a).inodes
              && (After(s, a).inodes[n] == s.inodes[n]
                  || (a.call in s.calls && HasTemp(s.calls[a.call].place) && s.calls[a.call].place.temp == n
                      && (a.SyncTemp? || a.CopyChunk?))
                  || (a.SyncFound? && !NotLinked(s, n) && After(s, a).inodes[n] == s.inodes[n].(synced := true)))
    ensures a.SyncTemp? ==> forall n | n in s.inodes :: After(s, a).inodes[n].content == s.inodes[n].content
  {
    hide Extends;
  }

  lemma StepLinks(s: State, a: Action)
    requires Can(s, a) && !a.Crash?
    ensures Extends(s.final, After(s, a).final)
    ensures forall p | p in After(s, a).final && p !in s.final ::
              a.Link? && p == s.calls[a.call].path && After(s, a).final[p] == s.calls[a.call].place.temp
    ensures Extends(s.durable, s.final) ==> Extends(s.durable, After(s, a).durable)
  {}

  lemma StepGrows(s: State, a: Action)
    requires Inv(s) && Can(s, a) && !a.Crash?
    ensures Grows(s, After(s, a))
  {
    hide After, ClaimsUnique, ReportHolds, TempsPrivate, CallHolds;
    StepLinks(s, a);
    StepWrites(s, a);
    var c := a.call;
    if c in s.calls { assert CallHolds(s, s.calls[c]); OwnNotLinked(s, c); }
    assert forall p | p in s.final :: EntryHolds(s, p);
    assert a.CopyChunk? ==> NotLinked(s, s.calls[c].place.temp);
  }

  lemma StepSpares(s: State, a: Action)
    requires Inv(s) && Can(s, a) && !a.Crash?
    ensures SparesTemps(s, After(s, a), a.call)
  {
    hide After, ClaimsUnique, ReportHolds, FilesHold, CallHolds;
    StepLinks(s, a);
    StepWrites(s, a);
    var c := a.call;
    if c in s.calls && HasTemp(s.calls[c].place) { OwnTempSpares(s, c); }
    forall n | !NotLinked(s, n) ensures n in s.inodes && s.inodes[n].synced { LinkedIsSynced(s, n); }
  }

  /** fsync of a linked artifact changes nothing: linked artifacts are synced. */
  lemma LinkedIsSynced(s: State, n: nat)
    requires Inv(s) && !NotLinked(s, n)
    ensures n in s.inodes && s.inodes[n].synced
  {
    var p :| p in s.final && s.final[p] == n;
    assert EntryHolds(s, p);
  }

  lemma StepIsOf(s: State, a: Action)
    requires Inv(s) && Can(s, a) && !a.Crash?
    ensures StepOf(s, After(s, a), a.call)
  {
    hide After, Can, Inv, Grows, SparesTemps, OthersWait;
    StepWaits(s, a);
    StepGrows(s, a);
    StepSpares(s, a);
  }

  lemma OwnNotLinked(s: State, c: nat)
    requires c in s.calls && CallHolds(s, s.calls[c])
    ensures (s.calls[c].place.Copying? || s.calls[c].place.TempSynced? || s.calls[c].place.Checked?) ==>
            NotLinked(s, s.calls[c].place.temp)
  {}

  lemma StepKeepsFiles(s: State, a: Action)
    requires Inv(s) && Can(s, a) && !a.Crash?
    ensures FilesHold(After(s, a))
  {
    hide ClaimsUnique, ReportHolds, TempsPrivate, CallHolds;
    var c, t := a.call, After(s, a);
    if c in s.calls { assert CallHolds(s, s.calls[c]); OwnNotLinked(s, c); OwnTempHolds(s, c); }
    forall p | p in t.final ensures EntryHolds(t, p) {
      if p in s.final { assert EntryHolds(s, p); }
    }
  }

  lemma OwnTempHolds(s: State, c: nat)
    requires c in s.calls && CallHolds(s, s.calls[c])
    ensures s.calls[c].place.Checked? ==> TempHolds(s, s.calls[c].place.temp, s.calls[c].expected)
  {}

  lemma OwnCallLooks(s: State, a: Action)
    requires Inv(s) && Can(s, a)
    requires a.Begin? || a.CheckSource? || a.LookFinal? || a.SyncFound? || a.SyncFoundParent? || a.LookMissing?
             || a.Finish? || a.Fail?
    ensures a.call in After(s, a).calls ==> CallHolds(After(s, a), After(s, a).calls[a.call])
  {
    hide ClaimsUnique, ReportHolds, TempsPrivate, FilesHold;
    if a.call in s.calls { assert CallHolds(s, s.calls[a.call]); }
  }

  lemma OwnCallCopies(s: State, a: Action)
    requires Inv(s) && Can(s, a) && (a.CreateTemp? || a.CopyChunk? || a.SyncTemp? || a.Rehash?)
    ensures a.call in After(s, a).calls && CallHolds(After(s, a), After(s, a).calls[a.call])
  {
    hide ClaimsUnique, ReportHolds, TempsPrivate;
    assert CallHolds(s, s.calls[a.call]);
    assert forall p | p in s.final :: EntryHolds(s, p);
  }

  lemma OwnCallInstalls(s: State, a: Action)
    requires Inv(s) && Can(s, a) && (a.Link? || a.VerifyFinal? || a.SyncParent?)
    ensures a.call in After(s, a).calls && CallHolds(After(s, a), After(s, a).calls[a.call])
  {
    hide ClaimsUnique, ReportHolds, TempsPrivate, FilesHold;
    assert CallHolds(s, s.calls[a.call]);
  }

  lemma OwnCallHolds(s: State, a: Action)
    requires Inv(s) && Can(s, a) && !a.Crash?
    ensures a.call in After(s, a).calls ==> CallHolds(After(s, a), After(s, a).calls[a.call])
  {
    hide Inv, Can, After, CallHolds;
    if a.CreateTemp? || a.CopyChunk? || a.SyncTemp? || a.Rehash? {
      OwnCallCopies(s, a);
    } else if a.Link? || a.VerifyFinal? || a.SyncParent? {
      OwnCallInstalls(s, a);
    } else {
      OwnCallLooks(s, a);
    }
  }

  lemma OwnTempMoves(s: State, a: Action)
    requires Can(s, a) && !a.Crash?
    ensures var (c, t) := (a.call, After(s, a));
            c in t.calls && HasTemp(t.calls[c].place) ==>
              c in s.calls && (if HasTemp(s.calls[c].place) then t.calls[c].place.temp == s.calls[c].place.temp
                               else t.calls[c].place.temp !in s.inodes)
  {
    hide Matches, Extends;
  }

  lemma StepKeepsTempsPrivate(s: State, a: Action)
    requires Inv(s) && Can(s, a) && !a.Crash?
    ensures TempsPrivate(After(s, a))
  {
    hide ClaimsUnique, ReportHolds, FilesHold, After, Can, CallHolds;
    var t := After(s, a);
    StepWaits(s, a);
    OwnTempMoves(s, a);
    forall d | d in s.calls && HasTemp(s.calls[d].place) ensures s.calls[d].place.temp in s.inodes {
      OwnTempSpares(s, d);
    }
  }

  lemma ClaimIsLinked(s: State, c: nat)
    requires Inv(s) && c in s.calls && Claims(s.calls[c])
    ensures s.calls[c].path in s.final
  {
    assert CallHolds(s, s.calls[c]);
  }

  /** A claim comes only from linking a path that was free; a published report only from a claim that ends. */
  lemma OwnClaimMoves(s: State, a: Action)
    requires Can(s, a) && !a.Crash?
    ensures var (c, t) := (a.call, After(s, a));
            c in t.calls && Claims(t.calls[c]) ==>
              c in s.calls && t.calls[c].path == s.calls[c].path && (Claims(s.calls[c]) || s.calls[c].path !in s.final)
    ensures var (c, t) := (a.call, After(s, a));
            t.reports == s.reports
            || (&& c !in t.calls && c in s.calls
                && exists r ::
                  && t.reports == s.reports + [r] && r.path == s.calls[c].path
                  && (r.status == Published ==> Claims(s.calls[c])))
  {
    hide Matches, Extends;
    var c := a.call;
    if a.Finish? {
      var r := Report(s.calls[c].path, s.calls[c].expected, s.calls[c].place.status);
      assert After(s, a).reports == s.reports + [r];
    } else if a.SyncFoundParent? {
      var r := Report(s.calls[c].path, s.calls[c].expected, AlreadyPresent);
      assert After(s, a).reports == s.reports + [r];
    }
  }

  lemma ReportedIsLinked(s: State)
    requires Inv(s)
    ensures forall i | 0 <= i < |s.reports| :: s.reports[i].path in s.final
  {
    forall i | 0 <= i < |s.reports| ensures s.reports[i].path in s.final { assert ReportHolds(s, s.reports[i]); }
  }

  lemma StepKeepsClaims(s: State, a: Action)
    requires Inv(s) && Can(s, a) && !a.Crash?
    ensures ClaimsUnique(After(s, a))
  {
    hide FilesHold, TempsPrivate, CallHolds, After, Can, ReportHolds;
    StepWaits(s, a);
    OwnClaimMoves(s, a);
    ReportedIsLinked(s);
    forall c | c in s.calls && Claims(s.calls[c]) ensures s.calls[c].path in s.final { ClaimIsLinked(s, c); }
  }

  lemma NewReportHolds(s: State, a: Action, r: Report)
    requires Inv(s) && Can(s, a) && !a.Crash? && r in After(s, a).reports && r !in s.reports
    ensures ReportHolds(After(s, a), r)
  {
    hide ClaimsUnique, TempsPrivate;
    assert a.Finish? || a.SyncFoundParent?;
    assert CallHolds(s, s.calls[a.call]);
  }

  lemma StepKeepsReported(s: State, a: Action)
    requires Inv(s) && Can(s, a) && !a.Crash?
    ensures forall r | r in After(s, a).reports :: ReportHolds(After(s, a), r)
  {
    hide FilesHold, ClaimsUnique, TempsPrivate, CallHolds, ReportHolds, After, Can, Grows;
    StepIsOf(s, a);
    forall r | r in After(s, a).reports ensures ReportHolds(After(s, a), r) {
      if r in s.reports { StepKeepsReports(s, After(s, a), r); } else { NewReportHolds(s, a, r); }
    }
  }

  lemma CrashKeepsInv(s: State, a: Action)
    requires Inv(s) && Can(s, a) && a.Crash?
    ensures Inv(After(s, a))
  {
    var t := After(s, a);
    forall p | p in t.final ensures EntryHolds(t, p) { assert EntryHolds(s, p); }
    forall r | r in t.reports ensures ReportHolds(t, r) {
      assert ReportHolds(s, r);
      assert EntryHolds(s, r.path);
    }
  }

  lemma StepKeepsInv(s: State, a: Action)
    requires Inv(s) && Can(s, a)
    ensures Inv(After(s, a))
  {
    hide After, Can, FilesHold, CallHolds, TempsPrivate, ReportHolds, ClaimsUnique, StepOf;
    if a.Crash? {
      CrashKeepsInv(s, a);
    } else {
      StepIsOf(s, a);
      StepKeepsFiles(s, a);
      OwnCallHolds(s, a);
      StepKeepsCalls(s, After(s, a), a.call);
      StepKeepsTempsPrivate(s, a);
      StepKeepsReported(s, a);
      StepKeepsClaims(s, a);
    }
  }
}

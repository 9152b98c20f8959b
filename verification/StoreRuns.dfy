/** Whole runs of the artifact store: what any caller may rely on, crashes included. */
module StoreRuns {
  import opened Digests
  import opened StoreProtocol

  ghost predicate Trace(states: seq<State>, actions: seq<Action>) {
    && |states| == |actions| + 1 && states[0] == BLANK
    && forall i | 0 <= i < |actions| :: Can(states[i], actions[i]) && states[i + 1] == After(states[i], actions[i])
  }

  lemma BlankHolds()
    ensures Inv(BLANK)
  {}

  lemma {:induction false} TraceKeepsInv(states: seq<State>, actions: seq<Action>, i: nat)
    requires Trace(states, actions) && i < |states|
    ensures Inv(states[i])
  {
    hide Inv, Can, After;
    if i == 0 {
      BlankHolds();
    } else {
      TraceKeepsInv(states, actions, i - 1);
      StepKeepsInv(states[i - 1], actions[i - 1]);
      assert states[i - 1 + 1] == After(states[i - 1], actions[i - 1]);
    }
  }

  /** Whatever a reader finds at a final path, at any moment, is a whole artifact. */
  lemma NeverPartial(states: seq<State>, actions: seq<Action>, i: nat, p: string)
    requires Trace(states, actions) && i < |states| && p in states[i].final
    ensures p in states[i].linked && Matches(states[i], p, states[i].linked[p])
    ensures states[i].inodes[states[i].final[p]].synced
  {
    hide Trace, CallHolds, TempsPrivate, ReportHolds, ClaimsUnique;
    TraceKeepsInv(states, actions, i);
    assert EntryHolds(states[i], p);
  }

  ghost predicate SameFile(s: State, t: State, p: string) {
    && p in s.final && p in t.final && t.final[p] == s.final[p]
    && s.final[p] in s.inodes && s.final[p] in t.inodes && t.inodes[s.final[p]].content == s.inodes[s.final[p]].content
  }

  lemma StepKeepsContent(s: State, a: Action, p: string)
    requires Inv(s) && Can(s, a) && p in s.final && p in After(s, a).final
    ensures SameFile(s, After(s, a), p)
  {
    hide CallHolds, TempsPrivate, ReportHolds, ClaimsUnique;
    assert EntryHolds(s, p);
    if !a.Crash? { StepGrows(s, a); }
  }

  /** While an artifact is visible its file and its bytes stay the same. */
  lemma {:induction false} ContentNeverChanges(states: seq<State>, actions: seq<Action>, i: nat, j: nat, p: string)
    requires Trace(states, actions) && i <= j < |states|
    requires forall k | i <= k <= j :: p in states[k].final
    ensures SameFile(states[i], states[j], p)
    decreases j - i
  {
    hide Inv, Can, After;
    if i == j {
      NeverPartial(states, actions, i, p);
    } else {
      ContentNeverChanges(states, actions, i, j - 1, p);
      TraceKeepsInv(states, actions, j - 1);
      assert states[j - 1 + 1] == After(states[j - 1], actions[j - 1]) && Can(states[j - 1], actions[j - 1]);
      StepKeepsContent(states[j - 1], actions[j - 1], p);
    }
  }

  /** Bytes with this digest are at the path, and neither they nor the entry can be lost. */
  ghost predicate Durable(s: State, p: string, d: Digest) {
    p in s.durable && p in s.final && s.durable[p] == s.final[p] && Matches(s, p, d) && s.inodes[s.final[p]].synced
  }

  lemma ReportIsDurable(s: State, r: Report)
    requires Inv(s) && r in s.reports
    ensures Durable(s, r.path, r.digest)
  {
    assert ReportHolds(s, r);
    assert EntryHolds(s, r.path);
  }

  lemma StepKeepsDurable(s: State, a: Action, p: string, d: Digest)
    requires Inv(s) && Can(s, a) && Durable(s, p, d)
    ensures Durable(After(s, a), p, d)
  {
    hide CallHolds, TempsPrivate, ReportHolds, ClaimsUnique;
    if !a.Crash? {
      StepGrows(s, a);
      StepKeepsFiles(s, a);
      assert EntryHolds(After(s, a), p);
    }
  }

  lemma {:induction false} DurableForEver(states: seq<State>, actions: seq<Action>, i: nat, j: nat, p: string,
      d: Digest)
    requires Trace(states, actions) && i <= j < |states| && Durable(states[i], p, d)
    ensures Durable(states[j], p, d)
    decreases j - i
  {
    hide Inv, Can, After, Durable;
    if i < j {
      DurableForEver(states, actions, i, j - 1, p, d);
      TraceKeepsInv(states, actions, j - 1);
      assert states[j - 1 + 1] == After(states[j - 1], actions[j - 1]) && Can(states[j - 1], actions[j - 1]);
      StepKeepsDurable(states[j - 1], actions[j - 1], p, d);
    }
  }

  /**
   A reported success, published or already present, means that the digest's bytes are durably
   at the path, from that moment on and across every later crash.
   */
  lemma SuccessIsDurable(states: seq<State>, actions: seq<Action>, i: nat, j: nat, r: Report)
    requires Trace(states, actions) && i <= j < |states| && r in states[i].reports
    ensures Durable(states[j], r.path, r.digest)
  {
    hide Trace, Durable, Inv;
    TraceKeepsInv(states, actions, i);
    ReportIsDurable(states[i], r);
    DurableForEver(states, actions, i, j, r.path, r.digest);
  }

  /** Two successes for one path carried the same digest, and at most one of them published it. */
  lemma SuccessesAgree(states: seq<State>, actions: seq<Action>, i: nat, k: nat, l: nat)
    requires Trace(states, actions) && i < |states| && k < l < |states[i].reports|
    requires states[i].reports[k].path == states[i].reports[l].path
    ensures states[i].reports[k].digest == states[i].reports[l].digest
    ensures !(states[i].reports[k].status == Published && states[i].reports[l].status == Published)
  {
    hide Trace, CallHolds, TempsPrivate, FilesHold;
    TraceKeepsInv(states, actions, i);
    var s := states[i];
    assert ReportHolds(s, s.reports[k]) && ReportHolds(s, s.reports[l]);
  }
}

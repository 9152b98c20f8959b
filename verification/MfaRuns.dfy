/** Whole runs of the second-factor service, the TOTP, recovery-code and passkey paths interleaved. */
module MfaRuns {
  import opened Mfa
  import opened MfaExactly
  import opened Wrappers

  /** secrets and hashes: every secret and recovery-code hash generated so far. */
  datatype World = World(tables: Tables, secrets: set<nat>, hashes: set<string>)

  datatype Op =
    | Create(user: UserId, challenge: nat, now: Moment)
    | Login(challenge: nat, factor: Factor, now: Moment)
    | PasskeyOptions(challenge: nat, ceremony: nat, now: Moment)
    | PasskeyLogin(challenge: nat, ceremony: nat, answer: Passkey, now: Moment)
    | Setup(user: UserId, secret: nat, now: Moment)
    | Confirm(user: UserId, code: string, fresh_: set<string>, now: Moment)
    | Renew(user: UserId, passwordOk: bool, factor: Factor, fresh_: set<string>, now: Moment)
    | TurnOff(user: UserId, passwordOk: bool, factor: Factor, now: Moment)
    | SetActive(active: set<UserId>)

  /** Generated identifiers, secrets and codes are new. */
  predicate Can(w: World, op: Op) {
    match op
    case Create(_, ch, _) => ch !in w.tables.challenges
    case PasskeyOptions(_, ceremony, _) => ceremony !in w.tables.ceremonies
    case Setup(_, secret, _) => secret !in w.secrets
    case Confirm(_, _, hashes, _) => hashes !! w.hashes
    case Renew(_, _, _, hashes, _) => hashes !! w.hashes
    case _ => true
  }

  function TablesAfter(s: Settings, t: Tables, op: Op): Tables {
    match op
    case Create(user, ch, now) => CreateChallenge(s, t, user, ch, now)
    case Login(ch, factor, now) => VerifyLogin(s, t, ch, factor, now).0
    case PasskeyOptions(ch, ceremony, now) => OpenCeremony(s, t, ch, ceremony, now).0
    case PasskeyLogin(ch, ceremony, answer, now) => VerifyPasskey(t, ch, ceremony, answer, now).0
    case Setup(user, secret, now) => StartSetup(s, t, user, secret, now).0
    case Confirm(user, code, hashes, now) => ConfirmSetup(s, t, user, code, hashes, now).0
    case Renew(user, ok, factor, hashes, now) => Regenerate(s, t, user, ok, factor, hashes, now).0
    case TurnOff(user, ok, factor, now) => Disable(s, t, user, ok, factor, now).0
    case SetActive(active) => t.(active := active)
  }

  function After(s: Settings, w: World, op: Op): World {
    World(TablesAfter(s, w.tables, op),
          if op.Setup? then w.secrets + {op.secret} else w.secrets,
          if op.Confirm? || op.Renew? then w.hashes + op.fresh_ else w.hashes)
  }

  ghost predicate Run(s: Settings, worlds: seq<World>, ops: seq<Op>) {
    && |worlds| == |ops| + 1 && worlds[0] == World(Tables(map[], map[], map[], map[], {}), {}, {})
    && forall i | 0 <= i < |ops| :: Can(worlds[i], ops[i]) && worlds[i + 1] == After(s, worlds[i], ops[i])
  }

  /** The counter or code that a step accepted. */
  function Used(s: Settings, t: Tables, op: Op): Option<Consumed> {
    var r := match op
      case Login(ch, factor, now) => VerifyLogin(s, t, ch, factor, now).1
      case Confirm(user, code, hashes, now) => ConfirmSetup(s, t, user, code, hashes, now).1
      case Renew(user, ok, factor, hashes, now) => Regenerate(s, t, user, ok, factor, hashes, now).1
      case TurnOff(user, ok, factor, now) => Disable(s, t, user, ok, factor, now).1
      case _ => Err(FactorInvalid);
    if r.Ok? then Some(r.value) else None
  }

  /** The challenge that a step completed, by either path. */
  function Completed(s: Settings, t: Tables, op: Op): Option<nat> {
    match op
    case Login(ch, factor, now) => if VerifyLogin(s, t, ch, factor, now).1.Ok? then Some(ch) else None
    case PasskeyLogin(ch, ceremony, answer, now) =>
      if VerifyPasskey(t, ch, ceremony, answer, now).1.Ok? then Some(ch) else None
    case _ => None
  }

  /** A failed code: one may be tried on the challenge, and the answer is a refusal. */
  ghost predicate FailedOn(s: Settings, t: Tables, op: Op, ch: nat) {
    && op.Login? && op.challenge == ch && MayTry(s, t, ch, op.now)
    && VerifyLogin(s, t, ch, op.factor, op.now).1.Err?
  }

  // ----- The invariant -----

  predicate ChallengeHolds(s: Settings, c: Challenge) {
    && !(c.usedAt.Some? && c.invalidatedAt.Some?)
    && c.attempts <= s.maxAttempts
    && (c.attempts >= s.maxAttempts ==> c.invalidatedAt.Some?)
  }

  ghost predicate OneOpen(t: Tables) {
    forall a, b | a in t.challenges && b in t.challenges
                  && OpenChallenge(t.challenges[a]) && OpenChallenge(t.challenges[b])
                  && t.challenges[a].userId == t.challenges[b].userId :: a == b
  }

  ghost predicate Inv(s: Settings, w: World) {
    && (forall ch | ch in w.tables.challenges :: ChallengeHolds(s, w.tables.challenges[ch]))
    && OneOpen(w.tables)
    && (forall u | u in w.tables.methods :: w.tables.methods[u].secret in w.secrets)
    && w.tables.codes.Keys <= w.hashes
  }

  /** A step of a challenge other than creating it: closed ones stay as they are, open ones may close or count. */
  ghost predicate ChallengeMoves(s: Settings, a: Challenge, b: Challenge) {
    && b.userId == a.userId
    && (a.usedAt.Some? ==> b.usedAt.Some?) && (a.invalidatedAt.Some? ==> b.invalidatedAt.Some?)
    && (OpenChallenge(b) ==> OpenChallenge(a))
    && (ChallengeHolds(s, a) ==> ChallengeHolds(s, b))
    && a.attempts <= b.attempts <= a.attempts + 1
  }

  lemma LoginMoves(s: Settings, t: Tables, ch: nat, factor: Factor, now: Moment, k: nat)
    requires s.maxAttempts > 0 && k in t.challenges
    ensures k in VerifyLogin(s, t, ch, factor, now).0.challenges
    ensures ChallengeMoves(s, t.challenges[k], VerifyLogin(s, t, ch, factor, now).0.challenges[k])
  {
    hide MatchingCounter, Strip;
  }

  lemma PasskeyMoves(s: Settings, t: Tables, ch: nat, ceremony: nat, answer: Passkey, now: Moment, k: nat)
    requires s.maxAttempts > 0 && k in t.challenges
    ensures k in VerifyPasskey(t, ch, ceremony, answer, now).0.challenges
    ensures ChallengeMoves(s, t.challenges[k], VerifyPasskey(t, ch, ceremony, answer, now).0.challenges[k])
  {}

  lemma DisableMoves(s: Settings, t: Tables, user: UserId, ok: bool, factor: Factor, now: Moment, k: nat)
    requires s.maxAttempts > 0 && k in t.challenges
    ensures k in Disable(s, t, user, ok, factor, now).0.challenges
    ensures ChallengeMoves(s, t.challenges[k], Disable(s, t, user, ok, factor, now).0.challenges[k])
  {
    hide MatchingCounter, Strip;
  }

  /** Setup, confirmation, new codes and new ceremonies leave challenges alone. */
  lemma OthersKeepChallenges(s: Settings, t: Tables, op: Op)
    requires op.PasskeyOptions? || op.Setup? || op.Confirm? || op.Renew? || op.SetActive?
    ensures TablesAfter(s, t, op).challenges == t.challenges
  {
    hide MatchingCounter, Strip;
  }

  lemma StepMovesChallenge(s: Settings, w: World, op: Op, ch: nat)
    requires s.maxAttempts > 0 && Can(w, op) && ch in w.tables.challenges
    ensures ch in TablesAfter(s, w.tables, op).challenges
    ensures ChallengeMoves(s, w.tables.challenges[ch], TablesAfter(s, w.tables, op).challenges[ch])
  {
    hide VerifyLogin, VerifyPasskey, Disable, OpenCeremony, StartSetup, ConfirmSetup, Regenerate;
    match op
    case Create(_, _, _) =>
    case Login(c, factor, now) => LoginMoves(s, w.tables, c, factor, now, ch);
    case PasskeyLogin(c, ceremony, answer, now) => PasskeyMoves(s, w.tables, c, ceremony, answer, now, ch);
    case TurnOff(user, ok, factor, now) => DisableMoves(s, w.tables, user, ok, factor, now, ch);
    case _ => OthersKeepChallenges(s, w.tables, op);
  }

  lemma StepAddsChallenge(s: Settings, w: World, op: Op, ch: nat)
    requires s.maxAttempts > 0 && Can(w, op) && ch in TablesAfter(s, w.tables, op).challenges
             && ch !in w.tables.challenges
    ensures op.Create? && ch == op.challenge
    ensures TablesAfter(s, w.tables, op).challenges[ch] ==
            Challenge(op.user, op.now + s.challengeSeconds, None, None, 0)
    ensures forall k | k in w.tables.challenges && w.tables.challenges[k].userId == op.user ::
              k in TablesAfter(s, w.tables, op).challenges && !OpenChallenge(TablesAfter(s, w.tables, op).challenges[k])
  {
    hide MatchingCounter, Strip;
  }

  lemma StepKeepsCodeNames(s: Settings, w: World, op: Op)
    requires w.tables.codes.Keys <= w.hashes
    ensures After(s, w, op).tables.codes.Keys <= After(s, w, op).hashes
  {
    hide MatchingCounter, OpenChallenge;
  }

  lemma StepKeepsSecretNames(s: Settings, w: World, op: Op)
    requires Can(w, op) && forall u | u in w.tables.methods :: w.tables.methods[u].secret in w.secrets
    ensures var x := After(s, w, op); forall u | u in x.tables.methods :: x.tables.methods[u].secret in x.secrets
  {
    hide TablesAfter, Can, Used, Enabled;
    forall u | u in After(s, w, op).tables.methods
      ensures After(s, w, op).tables.methods[u].secret in After(s, w, op).secrets
    {
      StepMovesMethod(s, w, op, u);
    }
  }

  lemma StepKeepsInv(s: Settings, w: World, op: Op)
    requires s.maxAttempts > 0 && Inv(s, w) && Can(w, op)
    ensures Inv(s, After(s, w, op))
  {
    hide TablesAfter, Can, OpenChallenge;
    StepKeepsCodeNames(s, w, op);
    StepKeepsSecretNames(s, w, op);
    var t, u := w.tables, TablesAfter(s, w.tables, op);
    forall ch | ch in u.challenges ensures ChallengeHolds(s, u.challenges[ch]) {
      if ch in t.challenges { StepMovesChallenge(s, w, op, ch); } else { StepAddsChallenge(s, w, op, ch); }
    }
    forall a, b | a in u.challenges && b in u.challenges
                  && OpenChallenge(u.challenges[a]) && OpenChallenge(u.challenges[b])
                  && u.challenges[a].userId == u.challenges[b].userId
      ensures a == b
    {
      if a in t.challenges { StepMovesChallenge(s, w, op, a); } else { StepAddsChallenge(s, w, op, a); }
      if b in t.challenges { StepMovesChallenge(s, w, op, b); } else { StepAddsChallenge(s, w, op, b); }
    }
  }

  lemma {:induction false} RunKeepsInv(s: Settings, worlds: seq<World>, ops: seq<Op>, i: nat)
    requires s.maxAttempts > 0 && Run(s, worlds, ops) && i < |worlds|
    ensures Inv(s, worlds[i])
  {
    hide After, Can;
    if i > 0 {
      RunKeepsInv(s, worlds, ops, i - 1);
      assert worlds[i - 1 + 1] == After(s, worlds[i - 1], ops[i - 1]);
      StepKeepsInv(s, worlds[i - 1], ops[i - 1]);
    }
  }

  // ----- Challenges -----

  /** At every moment: never both used and invalidated, attempts within the limit, one open challenge a user. */
  lemma ChallengesHold(s: Settings, worlds: seq<World>, ops: seq<Op>, i: nat, a: nat, b: nat)
    requires s.maxAttempts > 0 && Run(s, worlds, ops) && i < |worlds|
    requires a in worlds[i].tables.challenges && b in worlds[i].tables.challenges
    ensures ChallengeHolds(s, worlds[i].tables.challenges[a])
    ensures var (c, d) := (worlds[i].tables.challenges[a], worlds[i].tables.challenges[b]);
            OpenChallenge(c) && OpenChallenge(d) && c.userId == d.userId ==> a == b
  {
    hide Run;
    RunKeepsInv(s, worlds, ops, i);
  }

  lemma {:induction false} ClosedForEver(s: Settings, worlds: seq<World>, ops: seq<Op>, i: nat, k: nat, ch: nat)
    requires s.maxAttempts > 0 && Run(s, worlds, ops) && i <= k < |worlds| && ch in worlds[i].tables.challenges
    ensures ch in worlds[k].tables.challenges
    ensures worlds[i].tables.challenges[ch].usedAt.Some? ==> worlds[k].tables.challenges[ch].usedAt.Some?
    ensures worlds[i].tables.challenges[ch].invalidatedAt.Some? ==> worlds[k].tables.challenges[ch].invalidatedAt.Some?
    decreases k - i
  {
    hide TablesAfter, Can;
    if i < k {
      ClosedForEver(s, worlds, ops, i, k - 1, ch);
      assert worlds[k - 1 + 1] == After(s, worlds[k - 1], ops[k - 1]) && Can(worlds[k - 1], ops[k - 1]);
      StepMovesChallenge(s, worlds[k - 1], ops[k - 1], ch);
    }
  }

  lemma CompletionCloses(s: Settings, t: Tables, op: Op)
    requires Completed(s, t, op).Some?
    ensures var ch := Completed(s, t, op).value;
            && ch in t.challenges && OpenChallenge(t.challenges[ch])
            && ch in TablesAfter(s, t, op).challenges && TablesAfter(s, t, op).challenges[ch].usedAt.Some?
  {
    hide MatchingCounter, Strip;
  }

  /** A login challenge succeeds at most once, whichever paths are tried, and never after it was closed. */
  lemma SucceedsAtMostOnce(s: Settings, worlds: seq<World>, ops: seq<Op>, i: nat, k: nat)
    requires s.maxAttempts > 0 && Run(s, worlds, ops) && i < k < |ops|
    requires Completed(s, worlds[i].tables, ops[i]).Some?
    ensures Completed(s, worlds[k].tables, ops[k]) != Completed(s, worlds[i].tables, ops[i])
  {
    hide TablesAfter, Can, Completed;
    CompletionCloses(s, worlds[i].tables, ops[i]);
    var ch := Completed(s, worlds[i].tables, ops[i]).value;
    assert worlds[i + 1] == After(s, worlds[i], ops[i]);
    ClosedForEver(s, worlds, ops, i + 1, k, ch);
    if Completed(s, worlds[k].tables, ops[k]).Some? { CompletionCloses(s, worlds[k].tables, ops[k]); }
  }

  ghost function Failures(s: Settings, worlds: seq<World>, ops: seq<Op>, n: nat, ch: nat): nat
    requires n <= |ops| && |ops| < |worlds|
  {
    if n == 0 then 0
    else Failures(s, worlds, ops, n - 1, ch) + if FailedOn(s, worlds[n - 1].tables, ops[n - 1], ch) then 1 else 0
  }

  lemma LoginCountsFailure(s: Settings, t: Tables, op: Op, ch: nat)
    requires s.maxAttempts > 0 && op.Login? && ch in t.challenges
    ensures ch in TablesAfter(s, t, op).challenges
    ensures TablesAfter(s, t, op).challenges[ch].attempts ==
            t.challenges[ch].attempts + if FailedOn(s, t, op, ch) then 1 else 0
  {
    hide MatchingCounter, Strip;
  }

  lemma OthersCountNothing(s: Settings, w: World, op: Op, ch: nat)
    requires Can(w, op) && !op.Login? && ch in w.tables.challenges && ch in TablesAfter(s, w.tables, op).challenges
    ensures TablesAfter(s, w.tables, op).challenges[ch].attempts == w.tables.challenges[ch].attempts
  {
    hide MatchingCounter, VerifyLogin;
  }

  lemma StepCountsFailure(s: Settings, w: World, op: Op, ch: nat)
    requires s.maxAttempts > 0 && Can(w, op) && ch in w.tables.challenges
    ensures ch in TablesAfter(s, w.tables, op).challenges
    ensures TablesAfter(s, w.tables, op).challenges[ch].attempts ==
            w.tables.challenges[ch].attempts + if FailedOn(s, w.tables, op, ch) then 1 else 0
  {
    hide TablesAfter;
    StepMovesChallenge(s, w, op, ch);
    if op.Login? { LoginCountsFailure(s, w.tables, op, ch); } else { OthersCountNothing(s, w, op, ch); }
  }

  lemma {:induction false} AttemptsCountFailures(s: Settings, worlds: seq<World>, ops: seq<Op>, n: nat, ch: nat)
    requires s.maxAttempts > 0 && Run(s, worlds, ops) && n < |worlds|
    ensures if ch in worlds[n].tables.challenges
            then worlds[n].tables.challenges[ch].attempts == Failures(s, worlds, ops, n, ch)
            else Failures(s, worlds, ops, n, ch) == 0
  {
    hide TablesAfter, Can, FailedOn;
    if n > 0 {
      AttemptsCountFailures(s, worlds, ops, n - 1, ch);
      var w, op := worlds[n - 1], ops[n - 1];
      assert worlds[n - 1 + 1] == After(s, w, op) && Can(w, op);
      FailedIsKnown(s, w.tables, op, ch);
      if ch in w.tables.challenges {
        StepCountsFailure(s, w, op, ch);
      } else if ch in worlds[n].tables.challenges {
        StepAddsChallenge(s, w, op, ch);
      }
    }
  }

  lemma FailedIsKnown(s: Settings, t: Tables, op: Op, ch: nat)
    ensures FailedOn(s, t, op, ch) ==> ch in t.challenges
  {}

  /** Over a whole run a challenge takes at most the allowed number of failed codes. */
  lemma FailuresBounded(s: Settings, worlds: seq<World>, ops: seq<Op>, n: nat, ch: nat)
    requires s.maxAttempts > 0 && Run(s, worlds, ops) && n < |worlds|
    ensures Failures(s, worlds, ops, n, ch) <= s.maxAttempts
  {
    hide Run;
    AttemptsCountFailures(s, worlds, ops, n, ch);
    RunKeepsInv(s, worlds, ops, n);
  }

  // ----- Counters and codes -----

  /** Wherever the secret is still stored, its last accepted counter is at least c. */
  ghost predicate Reached(w: World, secret: nat, c: int) {
    && secret in w.secrets
    && forall u | u in w.tables.methods && w.tables.methods[u].secret == secret ::
         w.tables.methods[u].lastCounter.Some? && w.tables.methods[u].lastCounter.value >= c
  }

  /** Secrets belong to one user each. */
  ghost predicate SecretsUnique(w: World) {
    && (forall u | u in w.tables.methods :: w.tables.methods[u].secret in w.secrets)
    && forall u, v | u in w.tables.methods && v in w.tables.methods
                     && w.tables.methods[u].secret == w.tables.methods[v].secret :: u == v
  }

  /** A stored method that is not enabled has accepted nothing yet. */
  ghost predicate Unstarted(w: World) {
    forall u | u in w.tables.methods && !w.tables.methods[u].enabled :: w.tables.methods[u].lastCounter.None?
  }

  /** What one step does to the stored methods. */
  ghost predicate MethodMoves(s: Settings, w: World, op: Op, u: UserId) {
    var t, x := w.tables, TablesAfter(s, w.tables, op);
    u in x.methods ==>
      if op.Setup? && u == op.user && !Enabled(t, u) then
        x.methods[u].secret == op.secret && x.methods[u].lastCounter.None? && !x.methods[u].enabled
      else
        && u in t.methods && x.methods[u].secret == t.methods[u].secret
        && ((x.methods[u].lastCounter == t.methods[u].lastCounter && x.methods[u].enabled == t.methods[u].enabled)
            || (&& x.methods[u].enabled && x.methods[u].lastCounter.Some?
                && Used(s, t, op) == Some(Counter(t.methods[u].secret, x.methods[u].lastCounter.value))
                && (t.methods[u].enabled && t.methods[u].lastCounter.Some? ==>
                      x.methods[u].lastCounter.value > t.methods[u].lastCounter.value)))
  }

  lemma StepMovesMethod(s: Settings, w: World, op: Op, u: UserId)
    requires Can(w, op)
    ensures MethodMoves(s, w, op, u)
  {
    hide MethodMoves;
    if op.Login? {
      LoginMovesMethod(s, w, op, u);
    } else if op.Confirm? {
      ConfirmMovesMethod(s, w, op, u);
    } else if op.Renew? || op.TurnOff? {
      SensitiveMovesMethod(s, w, op, u);
    } else {
      OthersMoveMethod(s, w, op, u);
    }
  }

  lemma LoginMovesMethod(s: Settings, w: World, op: Op, u: UserId)
    requires op.Login?
    ensures MethodMoves(s, w, op, u)
  {
    hide MatchingCounter, ConfirmSetup;
  }

  lemma ConfirmMovesMethod(s: Settings, w: World, op: Op, u: UserId)
    requires op.Confirm?
    ensures MethodMoves(s, w, op, u)
  {
    hide MatchingCounter, VerifyLogin;
  }

  lemma SensitiveMovesMethod(s: Settings, w: World, op: Op, u: UserId)
    requires op.Renew? || op.TurnOff?
    ensures MethodMoves(s, w, op, u)
  {
    hide MatchingCounter, CreateChallenge, VerifyPasskey, OpenCeremony, VerifyLogin, ConfirmSetup;
  }

  lemma OthersMoveMethod(s: Settings, w: World, op: Op, u: UserId)
    requires !op.Login? && !op.Confirm? && !op.Renew? && !op.TurnOff?
    ensures MethodMoves(s, w, op, u)
  {
    hide MatchingCounter, VerifyLogin, ConfirmSetup, VerifySensitive;
  }

  lemma StepKeepsSecrets(s: Settings, w: World, op: Op)
    requires SecretsUnique(w) && Unstarted(w) && Can(w, op)
    ensures SecretsUnique(After(s, w, op)) && Unstarted(After(s, w, op))
  {
    hide TablesAfter, Used;
    var x := After(s, w, op);
    forall u | u in x.tables.methods
      ensures x.tables.methods[u].secret in x.secrets
      ensures !x.tables.methods[u].enabled ==> x.tables.methods[u].lastCounter.None?
    {
      StepMovesMethod(s, w, op, u);
    }
    forall u, v | u in x.tables.methods && v in x.tables.methods
      && x.tables.methods[u].secret == x.tables.methods[v].secret
      ensures u == v
    {
      StepMovesMethod(s, w, op, u);
      StepMovesMethod(s, w, op, v);
    }
  }

  lemma StepKeepsReached(s: Settings, w: World, op: Op, secret: nat, c: int)
    requires SecretsUnique(w) && Unstarted(w) && Can(w, op) && Reached(w, secret, c)
    ensures Reached(After(s, w, op), secret, c)
  {
    hide TablesAfter, Used;
    var x := After(s, w, op);
    forall u | u in x.tables.methods && x.tables.methods[u].secret == secret
      ensures x.tables.methods[u].lastCounter.Some? && x.tables.methods[u].lastCounter.value >= c
    {
      StepMovesMethod(s, w, op, u);
    }
  }

  lemma AcceptingReaches(s: Settings, w: World, op: Op, secret: nat, c: int)
    requires SecretsUnique(w) && Unstarted(w) && Can(w, op) && Used(s, w.tables, op) == Some(Counter(secret, c))
    ensures Reached(After(s, w, op), secret, c)
    ensures forall d | Reached(w, secret, d) :: d < c
  {
    hide MatchingCounter, Strip;
    var u := AcceptedFor(s, w.tables, op);
  }

  lemma AcceptedFor(s: Settings, t: Tables, op: Op) returns (u: UserId)
    requires Used(s, t, op).Some? && Used(s, t, op).value.Counter?
    ensures u in t.methods && t.methods[u].secret == Used(s, t, op).value.secret
    ensures u in TablesAfter(s, t, op).methods ==>
            TablesAfter(s, t, op).methods[u].lastCounter == Some(Used(s, t, op).value.counter)
    ensures t.methods[u].enabled && t.methods[u].lastCounter.Some? ==>
            Used(s, t, op).value.counter > t.methods[u].lastCounter.value
  {
    hide MatchingCounter, Strip;
    match op
    case Login(ch, _, _) => u := t.challenges[ch].userId;
    case Confirm(user, _, _, _) => u := user;
    case Renew(user, _, _, _, _) => u := user;
    case TurnOff(user, _, _, _) => u := user;
  }

  lemma {:induction false} RunKeepsSecrets(s: Settings, worlds: seq<World>, ops: seq<Op>, i: nat)
    requires Run(s, worlds, ops) && i < |worlds|
    ensures SecretsUnique(worlds[i]) && Unstarted(worlds[i])
  {
    hide After, Can;
    if i > 0 {
      RunKeepsSecrets(s, worlds, ops, i - 1);
      assert worlds[i - 1 + 1] == After(s, worlds[i - 1], ops[i - 1]) && Can(worlds[i - 1], ops[i - 1]);
      StepKeepsSecrets(s, worlds[i - 1], ops[i - 1]);
    }
  }

  lemma {:induction false} RunKeepsReached(s: Settings, worlds: seq<World>, ops: seq<Op>, i: nat, k: nat, secret: nat,
      c: int)
    requires Run(s, worlds, ops) && i <= k < |worlds| && Reached(worlds[i], secret, c)
    ensures Reached(worlds[k], secret, c)
    decreases k - i
  {
    hide After, Can, Reached, SecretsUnique, Unstarted;
    if i < k {
      RunKeepsReached(s, worlds, ops, i, k - 1, secret, c);
      RunKeepsSecrets(s, worlds, ops, k - 1);
      assert worlds[k - 1 + 1] == After(s, worlds[k - 1], ops[k - 1]) && Can(worlds[k - 1], ops[k - 1]);
      StepKeepsReached(s, worlds[k - 1], ops[k - 1], secret, c);
    }
  }

  /** The counters accepted for one stored secret strictly increase over the whole run. */
  lemma CountersIncrease(s: Settings, worlds: seq<World>, ops: seq<Op>, i: nat, k: nat, secret: nat, c: int, d: int)
    requires Run(s, worlds, ops) && i < k < |ops|
    requires Used(s, worlds[i].tables, ops[i]) == Some(Counter(secret, c))
             && Used(s, worlds[k].tables, ops[k]) == Some(Counter(secret, d))
    ensures c < d
  {
    hide After, Can, Used, Reached, SecretsUnique, Unstarted;
    RunKeepsSecrets(s, worlds, ops, i);
    RunKeepsSecrets(s, worlds, ops, k);
    assert worlds[i + 1] == After(s, worlds[i], ops[i]) && Can(worlds[i], ops[i]) && Can(worlds[k], ops[k]);
    AcceptingReaches(s, worlds[i], ops[i], secret, c);
    RunKeepsReached(s, worlds, ops, i + 1, k, secret, c);
    AcceptingReaches(s, worlds[k], ops[k], secret, d);
  }

  /** The code was generated before, and where it is still stored it is spent. */
  ghost predicate Spent(w: World, h: string) {
    h in w.hashes && (h in w.tables.codes ==> w.tables.codes[h].usedAt.Some?)
  }

  lemma StepKeepsSpent(s: Settings, w: World, op: Op, h: string)
    requires Can(w, op) && Spent(w, h)
    ensures Spent(After(s, w, op), h)
  {
    hide MatchingCounter, Strip;
  }

  lemma SpendingNeedsUnspent(s: Settings, w: World, op: Op, h: string)
    requires w.tables.codes.Keys <= w.hashes && Can(w, op) && Used(s, w.tables, op) == Some(Code(h))
    ensures !Spent(w, h) && Spent(After(s, w, op), h)
  {
    hide MatchingCounter, Strip;
  }

  lemma {:induction false} RunKeepsSpent(s: Settings, worlds: seq<World>, ops: seq<Op>, i: nat, k: nat, h: string)
    requires Run(s, worlds, ops) && i <= k < |worlds| && Spent(worlds[i], h)
    ensures Spent(worlds[k], h)
    decreases k - i
  {
    hide After, Can, Spent;
    if i < k {
      RunKeepsSpent(s, worlds, ops, i, k - 1, h);
      assert worlds[k - 1 + 1] == After(s, worlds[k - 1], ops[k - 1]) && Can(worlds[k - 1], ops[k - 1]);
      StepKeepsSpent(s, worlds[k - 1], ops[k - 1], h);
    }
  }

  /** No recovery code is consumed twice, by any operation. */
  lemma RecoveryCodesAreOneTime(s: Settings, worlds: seq<World>, ops: seq<Op>, i: nat, k: nat, h: string)
    requires s.maxAttempts > 0 && Run(s, worlds, ops) && i < k < |ops|
    requires Used(s, worlds[i].tables, ops[i]) == Some(Code(h))
    ensures Used(s, worlds[k].tables, ops[k]) != Some(Code(h))
  {
    hide After, Can, Used, Spent;
    RunKeepsInv(s, worlds, ops, i);
    RunKeepsInv(s, worlds, ops, k);
    assert worlds[i + 1] == After(s, worlds[i], ops[i]) && Can(worlds[i], ops[i]) && Can(worlds[k], ops[k]);
    SpendingNeedsUnspent(s, worlds[i], ops[i], h);
    RunKeepsSpent(s, worlds, ops, i + 1, k, h);
    if Used(s, worlds[k].tables, ops[k]) == Some(Code(h)) { SpendingNeedsUnspent(s, worlds[k], ops[k], h); }
  }

  /** The step replaced or removed the recovery codes of the user. */
  ghost predicate Replaces(s: Settings, t: Tables, op: Op, user: UserId) {
    || (op.Confirm? && op.user == user && ConfirmSetup(s, t, user, op.code, op.fresh_, op.now).1.Ok?)
    || (op.Renew? && op.user == user && Regenerate(s, t, user, op.passwordOk, op.factor, op.fresh_, op.now).1.Ok?)
    || (op.TurnOff? && op.user == user && Disable(s, t, user, op.passwordOk, op.factor, op.now).1.Ok?)
  }

  lemma ReplacedIsSpent(s: Settings, w: World, op: Op, user: UserId, h: string)
    requires Can(w, op) && w.tables.codes.Keys <= w.hashes && Replaces(s, w.tables, op, user)
    requires h in w.tables.codes && w.tables.codes[h].userId == user
    ensures Spent(After(s, w, op), h)
  {
    hide ConfirmSetup, Regenerate, Disable, MethodSpent, FirstMatch, VerifySensitive;
    match op
    case Confirm(_, code, hashes, now) => ConfirmExactly(s, w.tables, user, code, hashes, now);
    case Renew(_, ok, factor, hashes, now) => RegenerateExactly(s, w.tables, user, ok, factor, hashes, now);
    case TurnOff(_, ok, factor, now) => DisableExactly(s, w.tables, user, ok, factor, now);
  }

  /**
   No recovery code that the user had before regenerating, confirming a new setup or turning MFA
   off is ever accepted after it, by any operation.
   */
  lemma ReplacedCodesAreDead(s: Settings, worlds: seq<World>, ops: seq<Op>, i: nat, k: nat, user: UserId, h: string)
    requires s.maxAttempts > 0 && Run(s, worlds, ops) && i < k < |ops| && Replaces(s, worlds[i].tables, ops[i], user)
    requires h in worlds[i].tables.codes && worlds[i].tables.codes[h].userId == user
    ensures Used(s, worlds[k].tables, ops[k]) != Some(Code(h))
  {
    hide After, Can, Used, Spent, Replaces;
    RunKeepsInv(s, worlds, ops, i);
    RunKeepsInv(s, worlds, ops, k);
    assert worlds[i + 1] == After(s, worlds[i], ops[i]) && Can(worlds[i], ops[i]) && Can(worlds[k], ops[k]);
    ReplacedIsSpent(s, worlds[i], ops[i], user, h);
    RunKeepsSpent(s, worlds, ops, i + 1, k, h);
    if Used(s, worlds[k].tables, ops[k]) == Some(Code(h)) { SpendingNeedsUnspent(s, worlds[k], ops[k], h); }
  }
}

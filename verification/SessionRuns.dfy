/** Whole runs of the session service: rotation, reuse, revocation and deactivation in any order. */
module SessionRuns {
  import opened Sessions
  import opened Wrappers

  datatype World = World(rows: Rows, active: set<UserId>, resets: map<string, ResetToken>)

  /** SignOutAll is also what a password change and disabling MFA do to sessions. */
  datatype Op =
    | Issue(user: UserId, amr: Option<seq<string>>, family: nat, jti: nat, now: Moment)
    | Renew(token: Token, decoded: Decoded, next: nat, now: Moment)
    | SignOut(token: Token, decoded: Decoded, now: Moment)
    | SignOutAll(user: UserId, now: Moment, reason: string)
    | SignOutOthers(user: UserId, cookie: Option<Token>, decoded: Decoded, now: Moment, reason: string)
    | Forgot(user: UserId, name: string, lifetime: nat, now: Moment)
    | Reset(name: string, exists_: bool, now: Moment)
    | SetActive(active: set<UserId>)

  /** Generated identifiers are new. */
  ghost predicate Can(w: World, op: Op) {
    match op
    case Issue(_, _, family, jti, _) => jti !in w.rows && forall j | j in w.rows :: w.rows[j].family != family
    case Renew(_, _, next, _) => next !in w.rows
    case Forgot(_, name, _, _) => name !in w.resets
    case _ => true
  }

  function After(s: Settings, w: World, op: Op): World {
    match op
    case Issue(user, amr, family, jti, now) =>
      w.(rows := w.rows[jti := NewRecord(s, user, family, Some(now), amr, jti, now)])
    case Renew(token, decoded, next, now) => w.(rows := Refresh(s, w.rows, w.active, token, decoded, next, now).0)
    case SignOut(token, decoded, now) =>
      if decoded.Genuine? && token.jti in w.rows
      then w.(rows := RevokeWhere(w.rows, OfFamily(w.rows[token.jti].family), now, "logout")) else w
    case SignOutAll(user, now, reason) => w.(rows := RevokeWhere(w.rows, OfUser(user), now, reason))
    case SignOutOthers(user, cookie, decoded, now, reason) =>
      w.(rows := RevokeWhere(w.rows, OfUserOutside(user, KeptFamily(w.rows, user, cookie, decoded)), now, reason))
    case Forgot(user, name, lifetime, now) =>
      if user in w.active then w.(resets := OpenReset(w.resets, user, name, lifetime, now)) else w
    case Reset(name, exists_, now) =>
      if CanReset(w.resets, name, exists_, now) then
        w.(rows := RevokeWhere(w.rows, OfUser(w.resets[name].userId), now, "password_reset"),
           resets := CloseResets(w.resets, name, now))
      else w
    case SetActive(active) => w.(active := active)
  }

  ghost predicate Run(s: Settings, worlds: seq<World>, ops: seq<Op>) {
    && |worlds| == |ops| + 1 && worlds[0] == World(map[], {}, map[])
    && forall i | 0 <= i < |ops| :: Can(worlds[i], ops[i]) && worlds[i + 1] == After(s, worlds[i], ops[i])
  }

  /** The step rotated the token's record into a new one. */
  predicate Rotates(s: Settings, w: World, op: Op) {
    op.Renew? && Refresh(s, w.rows, w.active, op.token, op.decoded, op.next, op.now).1.Ok?
  }

  /** Every step revokes, or adds one record: a fresh family's or a successor. */
  lemma RenewalShape(s: Settings, w: World, op: Op)
    requires op.Renew? && Can(w, op)
    ensures var b := Refresh(s, w.rows, w.active, op.token, op.decoded, op.next, op.now).0;
            if Rotates(s, w, op) then
              Known(w.rows, op.token) && w.rows[op.token.jti].rotatedAt.None? && w.rows[op.token.jti].revokedAt.None?
              && b == Rotated(s, w.rows, op.token, op.next, op.now)
            else OnlyRevokes(w.rows, b)
  {
    hide Rotated, RevokeWhere, OnlyRevokes;
    UnchangedOnlyRevokes(w.rows);
    if Known(w.rows, op.token) {
      var f := OfFamily(w.rows[op.token.jti].family);
      RevokeWhereOnlyRevokes(w.rows, f, op.now, "refresh_token_reuse");
      RevokeWhereOnlyRevokes(w.rows, f, op.now, "user_inactive");
      if w.rows[op.token.jti].revokedAt.None? { ExpiryOnlyRevokes(w.rows, op.token.jti, op.now); }
    }
  }

  lemma UnchangedOnlyRevokes(rows: Rows)
    ensures OnlyRevokes(rows, rows)
  {}

  lemma ExpiryOnlyRevokes(rows: Rows, j: nat, now: Moment)
    requires j in rows && rows[j].revokedAt.None?
    ensures OnlyRevokes(rows, rows[j := Revoked(rows[j], now, "expired")])
  {}

  lemma StepShape(s: Settings, w: World, op: Op)
    requires Can(w, op)
    ensures if op.Issue?
            then After(s, w, op).rows ==
                 w.rows[op.jti := NewRecord(s, op.user, op.family, Some(op.now), op.amr, op.jti, op.now)]
            else if Rotates(s, w, op) then
              op.Renew? && Known(w.rows, op.token) && w.rows[op.token.jti].rotatedAt.None?
                && w.rows[op.token.jti].revokedAt.None?
              && After(s, w, op).rows == Rotated(s, w.rows, op.token, op.next, op.now)
            else OnlyRevokes(w.rows, After(s, w, op).rows)
  {
    hide Rotated, Refresh, RevokeWhere, OnlyRevokes;
    UnchangedOnlyRevokes(w.rows);
    match op
    case Renew(_, _, _, _) => RenewalShape(s, w, op);
    case SignOut(token, _, now) =>
      if token.jti in w.rows { RevokeWhereOnlyRevokes(w.rows, OfFamily(w.rows[token.jti].family), now, "logout"); }
    case SignOutAll(user, now, reason) => RevokeWhereOnlyRevokes(w.rows, OfUser(user), now, reason);
    case SignOutOthers(user, cookie, decoded, now, reason) =>
      RevokeWhereOnlyRevokes(w.rows, OfUserOutside(user, KeptFamily(w.rows, user, cookie, decoded)), now, reason);
    case Reset(name, _, now) =>
      if name in w.resets { RevokeWhereOnlyRevokes(w.rows, OfUser(w.resets[name].userId), now, "password_reset"); }
    case _ =>
  }

  lemma StepKeepsChains(s: Settings, w: World, op: Op)
    requires Chained(w.rows) && Can(w, op)
    ensures Chained(After(s, w, op).rows)
  {
    hide After, Rotated, OnlyRevokes, Refresh, Chained;
    StepShape(s, w, op);
    if op.Issue? {
      IssueKeepsChains(w.rows, NewRecord(s, op.user, op.family, Some(op.now), op.amr, op.jti, op.now), op.jti);
    } else if Rotates(s, w, op) {
      RotationKeepsChains(s, w.rows, op.token, op.next, op.now);
    } else {
      RevokingKeepsChains(w.rows, After(s, w, op).rows);
    }
  }

  lemma {:induction false} RunKeepsChains(s: Settings, worlds: seq<World>, ops: seq<Op>, i: nat)
    requires Run(s, worlds, ops) && i < |worlds|
    ensures Chained(worlds[i].rows)
  {
    hide Chained, After, Can;
    if i == 0 {
      EmptyChained();
    } else {
      RunKeepsChains(s, worlds, ops, i - 1);
      assert worlds[i - 1 + 1] == After(s, worlds[i - 1], ops[i - 1]);
      StepKeepsChains(s, worlds[i - 1], ops[i - 1]);
    }
  }

  lemma EmptyChained()
    ensures Chained(map[])
  {
    forall f: nat ensures HasChain(map[], f) { assert IsChain(map[], f, []); }
  }

  /** At every moment each family has at most one live record, the one that nothing replaced. */
  lemma OneLiveRecord(s: Settings, worlds: seq<World>, ops: seq<Op>, i: nat, j: nat, k: nat)
    requires Run(s, worlds, ops) && i < |worlds|
    requires Live(worlds[i].rows, j) && Live(worlds[i].rows, k) && worlds[i].rows[j].family == worlds[i].rows[k].family
    ensures j == k && worlds[i].rows[j].replacedBy.None? && worlds[i].rows[j].rotatedAt.None?
  {
    hide Run, Chained;
    RunKeepsChains(s, worlds, ops, i);
    AtMostOneLive(worlds[i].rows, j, k);
  }

  // ----- Records are kept -----

  /** A record keeps its token, user and family; what closed or replaced it stays. */
  ghost predicate RecordKept(a: Rows, b: Rows, j: nat) {
    j in a ==>
      && j in b
      && b[j].token == a[j].token && b[j].userId == a[j].userId && b[j].family == a[j].family
      && b[j].expiresAt == a[j].expiresAt
      && (a[j].revokedAt.Some? ==> b[j].revokedAt.Some?)
      && (a[j].rotatedAt.Some? ==> b[j].rotatedAt == a[j].rotatedAt && b[j].replacedBy == a[j].replacedBy)
  }

  lemma StepKeepsRecord(s: Settings, w: World, op: Op, j: nat)
    requires Can(w, op)
    ensures RecordKept(w.rows, After(s, w, op).rows, j)
  {
    hide After, Refresh;
    StepShape(s, w, op);
  }

  lemma {:induction false} RunKeepsRecord(s: Settings, worlds: seq<World>, ops: seq<Op>, i: nat, k: nat, j: nat)
    requires Run(s, worlds, ops) && i <= k < |worlds|
    ensures RecordKept(worlds[i].rows, worlds[k].rows, j)
    decreases k - i
  {
    hide After, Can;
    if i < k {
      RunKeepsRecord(s, worlds, ops, i, k - 1, j);
      assert worlds[k - 1 + 1] == After(s, worlds[k - 1], ops[k - 1]) && Can(worlds[k - 1], ops[k - 1]);
      StepKeepsRecord(s, worlds[k - 1], ops[k - 1], j);
    }
  }

  /** Every token ever issued in a family carries the authentication time and the methods of the first. */
  lemma ClaimsAreKept(s: Settings, worlds: seq<World>, ops: seq<Op>, i: nat, k: nat, j: nat, l: nat)
    requires Run(s, worlds, ops) && i <= k < |worlds|
    requires j in worlds[i].rows && l in worlds[k].rows && worlds[i].rows[j].family == worlds[k].rows[l].family
    ensures worlds[k].rows[l].token.authTime == worlds[i].rows[j].token.authTime
    ensures worlds[k].rows[l].token.amr == worlds[i].rows[j].token.amr
    ensures worlds[k].rows[l].userId == worlds[i].rows[j].userId
  {
    hide Run, Chained;
    RunKeepsRecord(s, worlds, ops, i, k, j);
    RunKeepsChains(s, worlds, ops, k);
    SameClaims(worlds[k].rows, j, l);
  }

  // ----- Dead families -----

  /** The family exists and none of its records is live. */
  ghost predicate Dead(rows: Rows, f: nat) {
    (exists j :: InFamily(rows, j, f)) && forall j | InFamily(rows, j, f) :: rows[j].revokedAt.Some?
  }

  lemma StepKeepsDead(s: Settings, w: World, op: Op, f: nat)
    requires Can(w, op) && Dead(w.rows, f)
    ensures Dead(After(s, w, op).rows, f)
  {
    hide After, Refresh;
    StepShape(s, w, op);
    var b := After(s, w, op).rows;
    assert Rotates(s, w, op) ==> !InFamily(w.rows, op.token.jti, f);
    var k :| InFamily(w.rows, k, f);
    StepKeepsRecord(s, w, op, k);
    assert InFamily(b, k, f);
    forall j | InFamily(b, j, f) ensures b[j].revokedAt.Some? {
      if j in w.rows {
        StepKeepsRecord(s, w, op, j);
        assert InFamily(w.rows, j, f);
      }
    }
  }

  /** A family without a live record never gets one again. */
  lemma {:induction false} DeadForEver(s: Settings, worlds: seq<World>, ops: seq<Op>, i: nat, k: nat, f: nat)
    requires Run(s, worlds, ops) && i <= k < |worlds| && Dead(worlds[i].rows, f)
    ensures Dead(worlds[k].rows, f)
    decreases k - i
  {
    hide After, Can, Dead;
    if i < k {
      DeadForEver(s, worlds, ops, i, k - 1, f);
      assert worlds[k - 1 + 1] == After(s, worlds[k - 1], ops[k - 1]) && Can(worlds[k - 1], ops[k - 1]);
      StepKeepsDead(s, worlds[k - 1], ops[k - 1], f);
    }
  }

  // ----- What a renewal does -----

  /**
   A renewal succeeds if and only if the genuine token's record is the live, unexpired tip of
   its family and its user is active; then the successor is the family's only live record and
   carries the same subject, time of sign-in and methods. Only the two records change.
   */
  lemma RenewalExactly(s: Settings, w: World, op: Op)
    requires op.Renew? && Can(w, op) && Chained(w.rows)
    ensures Rotates(s, w, op) <==>
            && op.decoded.Genuine? && Known(w.rows, op.token) && Live(w.rows, op.token.jti)
            && w.rows[op.token.jti].expiresAt > op.now && w.rows[op.token.jti].userId in w.active
    ensures Rotates(s, w, op) ==>
              var (rows, f) := (After(s, w, op).rows, w.rows[op.token.jti].family);
              var token := Refresh(s, w.rows, w.active, op.token, op.decoded, op.next, op.now).1.value;
              && token.subject == op.token.subject && token.jti == op.next
              && token.authTime == op.token.authTime && token.amr == op.token.amr
              && rows[op.next] == Record(token.subject, token, f, op.now + s.lifetime, None, None, None, None)
              && rows[op.token.jti] == w.rows[op.token.jti].(
                   revokedAt := Some(op.now), rotatedAt := Some(op.now), replacedBy := Some(op.next),
                   reason := Some("rotated"))
              && rows.Keys == w.rows.Keys + {op.next}
              && (forall j | j in w.rows && j != op.token.jti :: rows[j] == w.rows[j])
              && (forall j | Live(rows, j) && rows[j].family == f :: j == op.next)
  {
    hide Chained;
    if Known(w.rows, op.token) { LiveIsUnrotated(w.rows, op.token.jti); }
    if Rotates(s, w, op) {
      StepKeepsChains(s, w, op);
      var rows := After(s, w, op).rows;
      OriginOf(w.rows, op.token.jti);
      forall j | Live(rows, j) && rows[j].family == w.rows[op.token.jti].family ensures j == op.next {
        AtMostOneLive(rows, j, op.next);
      }
    }
  }

  /** The open records of the family, and no others, are closed with this time and reason. */
  ghost predicate ClosesFamily(a: Rows, b: Rows, f: nat, now: Moment, reason: string) {
    && b.Keys == a.Keys
    && forall j | j in a ::
         if a[j].family == f && a[j].revokedAt.None?
         then b[j] == a[j].(revokedAt := Some(now), reason := Some(reason)) else b[j] == a[j]
  }

  lemma ClosedFamilyIsDead(a: Rows, b: Rows, j: nat, now: Moment, reason: string)
    requires j in a && ClosesFamily(a, b, a[j].family, now, reason)
    ensures Dead(b, a[j].family)
  {
    assert InFamily(b, j, a[j].family);
  }

  /** Every refusal of a renewal, in the fields of the presented token's record, with what it leaves behind. */
  lemma RenewalRefusals(s: Settings, w: World, op: Op)
    requires op.Renew?
    ensures var (r, b) := (Refresh(s, w.rows, w.active, op.token, op.decoded, op.next, op.now).1, After(s, w, op).rows);
            var j := op.token.jti;
            if op.decoded.Expired? then b == w.rows && r == Err(TokenExpired)
            else if op.decoded.Forged? || j !in w.rows || w.rows[j].token != op.token
                 || w.rows[j].userId != op.token.subject then b == w.rows && r == Err(TokenInvalid)
            else
              var x := w.rows[j];
              && (x.rotatedAt.Some? && op.now - x.rotatedAt.value <= s.grace ==>
                    b == w.rows && r == Err(AlreadyRotated))
              && (x.rotatedAt.Some? && op.now - x.rotatedAt.value > s.grace ==>
                    ClosesFamily(w.rows, b, x.family, op.now, "refresh_token_reuse") && r == Err(ReuseDetected))
              && (x.rotatedAt.None? && x.revokedAt.Some? ==> b == w.rows && r == Err(SessionRevoked))
              && (x.rotatedAt.None? && x.revokedAt.None? && x.expiresAt <= op.now ==>
                    && b == w.rows[j := x.(revokedAt := Some(op.now), reason := Some("expired"))]
                    && r == Err(TokenExpired))
              && (x.rotatedAt.None? && x.revokedAt.None? && x.expiresAt > op.now && x.userId !in w.active ==>
                    ClosesFamily(w.rows, b, x.family, op.now, "user_inactive") && r == Err(UserInactive))
  {}

  /** A renewal for a user who is no longer active leaves the family dead for ever. */
  lemma InactiveRenewalEndsFamily(s: Settings, worlds: seq<World>, ops: seq<Op>, i: nat, k: nat)
    requires Run(s, worlds, ops) && i < k < |worlds| && ops[i].Renew?
    requires Refresh(s, worlds[i].rows, worlds[i].active, ops[i].token, ops[i].decoded, ops[i].next, ops[i].now).1 ==
             Err(UserInactive)
    ensures ops[i].token.jti in worlds[i].rows && Dead(worlds[k].rows, worlds[i].rows[ops[i].token.jti].family)
  {
    hide Refresh, Dead, ClosesFamily;
    RenewalRefusals(s, worlds[i], ops[i]);
    RenewalRefused(s, worlds[i], ops[i]);
    assert worlds[i + 1] == After(s, worlds[i], ops[i]);
    ClosedFamilyIsDead(worlds[i].rows, worlds[i + 1].rows, ops[i].token.jti, ops[i].now, "user_inactive");
    DeadForEver(s, worlds, ops, i + 1, k, worlds[i].rows[ops[i].token.jti].family);
  }

  lemma RenewalRefused(s: Settings, w: World, op: Op)
    requires op.Renew?
    requires Refresh(s, w.rows, w.active, op.token, op.decoded, op.next, op.now).1 == Err(UserInactive)
    ensures op.decoded.Genuine? && Known(w.rows, op.token) && w.rows[op.token.jti].rotatedAt.None?
    ensures w.rows[op.token.jti].revokedAt.None? && w.rows[op.token.jti].expiresAt > op.now
    ensures w.rows[op.token.jti].userId !in w.active
  {}

  lemma LiveIsUnrotated(rows: Rows, j: nat)
    requires Chained(rows) && j in rows
    ensures Live(rows, j) ==> rows[j].rotatedAt.None?
  {
    hide Chained;
    if Live(rows, j) { AtMostOneLive(rows, j, j); }
  }

  lemma OriginOf(rows: Rows, j: nat)
    requires Chained(rows) && j in rows
    ensures rows[j].token.authTime != Some(0) && rows[j].token.amr != Some([])
    ensures rows[j].token.subject == rows[j].userId
  {
    assert HasChain(rows, rows[j].family);
    var chain :| IsChain(rows, rows[j].family, chain);
    assert InFamily(rows, j, rows[j].family);
    var i :| 0 <= i < |chain| && chain[i] == j;
    assert SameOrigin(rows, chain, i);
  }

  /** A rotated token presented again after the grace period leaves its family without a live record, for ever. */
  lemma LateReuseEndsFamily(s: Settings, worlds: seq<World>, ops: seq<Op>, i: nat, k: nat)
    requires Run(s, worlds, ops) && i < k < |worlds| && ops[i].Renew?
    requires ops[i].decoded.Genuine? && Known(worlds[i].rows, ops[i].token)
    requires var r := worlds[i].rows[ops[i].token.jti]; r.rotatedAt.Some? && ops[i].now - r.rotatedAt.value > s.grace
    ensures Refresh(s, worlds[i].rows, worlds[i].active, ops[i].token, ops[i].decoded, ops[i].next, ops[i].now).1 ==
            Err(ReuseDetected)
    ensures Dead(worlds[k].rows, worlds[i].rows[ops[i].token.jti].family)
  {
    var w, op := worlds[i], ops[i];
    var f := w.rows[op.token.jti].family;
    assert worlds[i + 1] == After(s, w, op);
    assert InFamily(worlds[i + 1].rows, op.token.jti, f);
    DeadForEver(s, worlds, ops, i + 1, k, f);
  }

  /** The record of a token that was rotated at step i is rotated then and for ever. */
  lemma RotationStays(s: Settings, worlds: seq<World>, ops: seq<Op>, i: nat, k: nat)
    requires Run(s, worlds, ops) && i < k < |worlds| && Rotates(s, worlds[i], ops[i])
    ensures Known(worlds[k].rows, ops[i].token)
    ensures worlds[k].rows[ops[i].token.jti].rotatedAt == Some(ops[i].now)
    ensures worlds[k].rows[ops[i].token.jti].family == worlds[i].rows[ops[i].token.jti].family
  {
    hide Chained;
    var j := ops[i].token.jti;
    assert worlds[i + 1] == After(s, worlds[i], ops[i]) && Can(worlds[i], ops[i]);
    RunKeepsChains(s, worlds, ops, i);
    RenewalExactly(s, worlds[i], ops[i]);
    StepKeepsRecord(s, worlds[i], ops[i], j);
    RunKeepsRecord(s, worlds, ops, i + 1, k, j);
  }

  /**
   A token renews at most once in a run. Presented again it is refused: within the grace period
   nothing changes, after it the family is dead from then on.
   */
  lemma TokenRenewsOnce(s: Settings, worlds: seq<World>, ops: seq<Op>, i: nat, k: nat)
    requires Run(s, worlds, ops) && i < k < |ops| && Rotates(s, worlds[i], ops[i])
    requires ops[k].Renew? && ops[k].token == ops[i].token && ops[k].decoded.Genuine?
    ensures !Rotates(s, worlds[k], ops[k])
    ensures ops[k].now - ops[i].now <= s.grace ==> worlds[k + 1] == worlds[k]
    ensures ops[k].now - ops[i].now > s.grace ==>
              forall m | k < m < |worlds| :: Dead(worlds[m].rows, worlds[i].rows[ops[i].token.jti].family)
  {
    RotationStays(s, worlds, ops, i, k);
    assert worlds[k + 1] == After(s, worlds[k], ops[k]);
    if ops[k].now - ops[i].now > s.grace {
      forall m | k < m < |worlds| ensures Dead(worlds[m].rows, worlds[i].rows[ops[i].token.jti].family) {
        LateReuseEndsFamily(s, worlds, ops, k, m);
      }
    }
  }

  /** Whatever a family becomes, its records carry the user, the time and the methods of its sign-in. */
  lemma IssuedClaimsStay(s: Settings, worlds: seq<World>, ops: seq<Op>, i: nat, k: nat, l: nat)
    requires Run(s, worlds, ops) && i < k < |worlds| && ops[i].Issue?
    requires l in worlds[k].rows && worlds[k].rows[l].family == ops[i].family
    ensures worlds[k].rows[l].userId == ops[i].user
    ensures worlds[k].rows[l].token.authTime == if ops[i].now == 0 then None else Some(ops[i].now)
    ensures worlds[k].rows[l].token.amr == if ops[i].amr == Some([]) then None else ops[i].amr
  {
    assert worlds[i + 1] == After(s, worlds[i], ops[i]);
    ClaimsAreKept(s, worlds, ops, i + 1, k, ops[i].jti, l);
  }

  /** Logging out with a token that is expired, forged or unknown changes nothing. */
  lemma SignOutRefused(s: Settings, w: World, op: Op)
    requires op.SignOut? && !(op.decoded.Genuine? && op.token.jti in w.rows)
    ensures After(s, w, op) == w
  {}

  /** Logging out with a genuine token leaves its family dead from then on. */
  lemma SignOutEndsFamily(s: Settings, worlds: seq<World>, ops: seq<Op>, i: nat, k: nat)
    requires Run(s, worlds, ops) && i < k < |worlds| && ops[i].SignOut?
    requires ops[i].decoded.Genuine? && ops[i].token.jti in worlds[i].rows
    ensures Dead(worlds[k].rows, worlds[i].rows[ops[i].token.jti].family)
  {
    var f := worlds[i].rows[ops[i].token.jti].family;
    assert worlds[i + 1] == After(s, worlds[i], ops[i]);
    assert InFamily(worlds[i + 1].rows, ops[i].token.jti, f);
    DeadForEver(s, worlds, ops, i + 1, k, f);
  }

  /** Signing out elsewhere keeps the presented family as it is; every other family of the user is dead from then on. */
  lemma SignOutOthersKeepsOwn(s: Settings, worlds: seq<World>, ops: seq<Op>, i: nat, k: nat, j: nat)
    requires Run(s, worlds, ops) && i < k < |worlds| && ops[i].SignOutOthers? && j in worlds[i].rows
    ensures worlds[i].rows[j].userId != ops[i].user
            || OwnFamily(worlds[i].rows, ops[i].user, ops[i].cookie, ops[i].decoded, j) ==>
              worlds[i + 1].rows[j] == worlds[i].rows[j]
    ensures worlds[i].rows[j].userId == ops[i].user
            && !OwnFamily(worlds[i].rows, ops[i].user, ops[i].cookie, ops[i].decoded, j) ==>
              Dead(worlds[k].rows, worlds[i].rows[j].family)
  {
    hide Chained;
    var w, op := worlds[i], ops[i];
    var f, b := w.rows[j].family, worlds[i + 1].rows;
    RunKeepsChains(s, worlds, ops, i);
    assert b == After(s, w, op).rows;
    if w.rows[j].userId == op.user && !OwnFamily(w.rows, op.user, op.cookie, op.decoded, j) {
      assert InFamily(b, j, f);
      forall l | InFamily(b, l, f) ensures b[l].revokedAt.Some? { SameClaims(w.rows, j, l); }
      DeadForEver(s, worlds, ops, i + 1, k, f);
    }
  }

  /** Signing out everywhere, or a changed password, leaves every family of the user dead for ever. */
  lemma SignOutAllEndsFamilies(s: Settings, worlds: seq<World>, ops: seq<Op>, i: nat, k: nat, j: nat)
    requires Run(s, worlds, ops) && i < k < |worlds| && ops[i].SignOutAll?
    requires j in worlds[i].rows && worlds[i].rows[j].userId == ops[i].user
    ensures Dead(worlds[k].rows, worlds[i].rows[j].family)
  {
    hide Chained;
    var w, op := worlds[i], ops[i];
    var f, b := w.rows[j].family, worlds[i + 1].rows;
    RunKeepsChains(s, worlds, ops, i);
    assert b == After(s, w, op).rows;
    assert InFamily(b, j, f);
    forall l | InFamily(b, l, f) ensures b[l].revokedAt.Some? { SameClaims(w.rows, j, l); }
    DeadForEver(s, worlds, ops, i + 1, k, f);
  }

  // ----- Password resets -----

  /** A closed reset token stays closed, and no reset token is forgotten. */
  ghost predicate Closed(w: World, name: string) { name in w.resets && !Open(w.resets[name]) }

  lemma StepKeepsClosed(s: Settings, w: World, op: Op, name: string)
    requires Can(w, op) && Closed(w, name)
    ensures Closed(After(s, w, op), name)
  {
    hide Refresh;
  }

  lemma {:induction false} ClosedStays(s: Settings, worlds: seq<World>, ops: seq<Op>, i: nat, k: nat, name: string)
    requires Run(s, worlds, ops) && i <= k < |worlds| && Closed(worlds[i], name)
    ensures Closed(worlds[k], name)
    decreases k - i
  {
    hide After, Can, Closed;
    if i < k {
      ClosedStays(s, worlds, ops, i, k - 1, name);
      assert worlds[k - 1 + 1] == After(s, worlds[k - 1], ops[k - 1]) && Can(worlds[k - 1], ops[k - 1]);
      StepKeepsClosed(s, worlds[k - 1], ops[k - 1], name);
    }
  }

  /** The step reset a password. */
  predicate Resets(w: World, op: Op) { op.Reset? && CanReset(w.resets, op.name, op.exists_, op.now) }

  /** A reset succeeds if and only if the token is known, open and unexpired and its user exists. */
  lemma ResetExactly(s: Settings, w: World, op: Op)
    requires op.Reset?
    ensures Resets(w, op) <==>
            && op.name in w.resets && op.exists_ && w.resets[op.name].expiresAt > op.now
            && w.resets[op.name].usedAt.None? && w.resets[op.name].invalidatedAt.None?
    ensures !Resets(w, op) ==> After(s, w, op) == w
  {}

  /** Asking for a reset changes something only for an active user, whose one open token is then the new one. */
  lemma ForgotExactly(s: Settings, w: World, op: Op)
    requires op.Forgot? && Can(w, op)
    ensures var x := After(s, w, op);
            && x.rows == w.rows && x.active == w.active
            && (op.user !in w.active ==> x.resets == w.resets)
            && (op.user in w.active ==>
                  && op.name in x.resets && x.resets[op.name].userId == op.user
                  && x.resets[op.name].expiresAt == op.now + op.lifetime
                  && (forall k | k in x.resets && x.resets[k].userId == op.user :: Open(x.resets[k]) <==> k == op.name))
  {}

  /** No reset token from before a later request of the same active user ever works again. */
  lemma ForgotEndsOlder(s: Settings, worlds: seq<World>, ops: seq<Op>, i: nat, k: nat, name: string)
    requires Run(s, worlds, ops) && i < k < |ops| && ops[i].Forgot? && ops[i].user in worlds[i].active
    requires name in worlds[i].resets && worlds[i].resets[name].userId == ops[i].user
    ensures ops[k].Reset? && ops[k].name == name ==> !Resets(worlds[k], ops[k])
  {
    assert worlds[i + 1] == After(s, worlds[i], ops[i]) && Can(worlds[i], ops[i]);
    assert Closed(worlds[i + 1], name);
    ClosedStays(s, worlds, ops, i + 1, k, name);
  }

  /**
   After a reset, none of the reset tokens that the user had then works again, the used one
   included, and every family of the user is dead from then on.
   */
  lemma ResetIsFinal(s: Settings, worlds: seq<World>, ops: seq<Op>, i: nat, k: nat, name: string)
    requires Run(s, worlds, ops) && i < k < |ops| && Resets(worlds[i], ops[i])
    requires name in worlds[i].resets && worlds[i].resets[name].userId == worlds[i].resets[ops[i].name].userId
    ensures ops[k].Reset? && ops[k].name == name ==> !Resets(worlds[k], ops[k])
    ensures forall j | j in worlds[i].rows && worlds[i].rows[j].userId == worlds[i].resets[ops[i].name].userId ::
              Dead(worlds[k].rows, worlds[i].rows[j].family)
  {
    hide Chained;
    var w, op, b := worlds[i], ops[i], worlds[i + 1].rows;
    assert worlds[i + 1] == After(s, w, op);
    assert Closed(worlds[i + 1], name);
    ClosedStays(s, worlds, ops, i + 1, k, name);
    RunKeepsChains(s, worlds, ops, i);
    forall j | j in w.rows && w.rows[j].userId == w.resets[op.name].userId
      ensures Dead(worlds[k].rows, w.rows[j].family)
    {
      var f := w.rows[j].family;
      assert InFamily(b, j, f);
      forall l | InFamily(b, l, f) ensures b[l].revokedAt.Some? { SameClaims(w.rows, j, l); }
      DeadForEver(s, worlds, ops, i + 1, k, f);
    }
  }
}

/**
 Refresh-token families: issue, rotation, reuse detection and revocation, each transaction one
 step. Token signatures are an answer given with the token; identifiers are fresh names.
 */
module Sessions {
  import opened Wrappers

  type UserId = string
  type Moment = int

  /** A refresh token's claims. Claims without a value are absent. */
  datatype Token = Token(subject: UserId, jti: nat, authTime: Option<int>, amr: Option<seq<string>>)

  /** What decoding said of a presented token. */
  datatype Decoded = Genuine | Expired | Forged

  /** token stands for its collision-free hash. */
  datatype Record = Record(
    userId: UserId, token: Token, family: nat, expiresAt: Moment,
    revokedAt: Option<Moment>, rotatedAt: Option<Moment>, replacedBy: Option<nat>, reason: Option<string>)

  type Rows = map<nat, Record>

  datatype Settings = Settings(lifetime: nat, grace: nat)

  datatype Refused = TokenExpired | TokenInvalid | AlreadyRotated | ReuseDetected | SessionRevoked | UserInactive

  // ----- Records -----

  /** create_session_record: a zero time and an empty list are dropped from the claims. */
  function NewRecord(s: Settings, user: UserId, family: nat, authTime: Option<int>, amr: Option<seq<string>>,
      jti: nat, now: Moment): Record
  {
    var token :=
      Token(user, jti, if authTime == Some(0) then None else authTime, if amr == Some([]) then None else amr);
    Record(user, token, family, now + s.lifetime, None, None, None, None)
  }

  function Revoked(r: Record, now: Moment, reason: string): Record {
    r.(revokedAt := Some(now), reason := Some(reason))
  }

  /** The bulk update of every row that matches and is not yet revoked. */
  function RevokeWhere(rows: Rows, which: Record -> bool, now: Moment, reason: string): Rows {
    map j | j in rows :: if which(rows[j]) && rows[j].revokedAt.None? then Revoked(rows[j], now, reason) else rows[j]
  }

  function OfFamily(f: nat): Record -> bool { (r: Record) => r.family == f }

  function OfUser(u: UserId): Record -> bool { (r: Record) => r.userId == u }

  function OfUserOutside(u: UserId, f: Option<nat>): Record -> bool {
    (r: Record) => r.userId == u && (f.Some? ==> r.family != f.value)
  }

  predicate Known(rows: Rows, token: Token) {
    token.jti in rows && rows[token.jti].token == token && rows[token.jti].userId == token.subject
  }

  /** Rotation: the old record is closed and names its successor. */
  function Rotated(s: Settings, rows: Rows, token: Token, next: nat, now: Moment): Rows
    requires token.jti in rows
  {
    var r := rows[token.jti];
    var closed :=
      r.(revokedAt := Some(now), rotatedAt := Some(now), replacedBy := Some(next), reason := Some("rotated"));
    rows[token.jti := closed][next := NewRecord(s, r.userId, r.family, token.authTime, token.amr, next, now)]
  }

  /** refresh_session */
  function Refresh(s: Settings, rows: Rows, active: set<UserId>, token: Token, decoded: Decoded, next: nat, now: Moment)
    : (Rows, Result<Token, Refused>)
  {
    if decoded.Expired? then (rows, Err(TokenExpired))
    else if decoded.Forged? || !Known(rows, token) then (rows, Err(TokenInvalid))
    else
      var r := rows[token.jti];
      if r.rotatedAt.Some? then
        if now - r.rotatedAt.value <= s.grace then (rows, Err(AlreadyRotated))
        else (RevokeWhere(rows, OfFamily(r.family), now, "refresh_token_reuse"), Err(ReuseDetected))
      else if r.revokedAt.Some? then (rows, Err(SessionRevoked))
      else if r.expiresAt <= now then (rows[token.jti := Revoked(r, now, "expired")], Err(TokenExpired))
      else if r.userId !in active then (RevokeWhere(rows, OfFamily(r.family), now, "user_inactive"), Err(UserInactive))
      else
        (Rotated(s, rows, token, next, now),
         Ok(NewRecord(s, r.userId, r.family, token.authTime, token.amr, next, now).token))
  }

  // ----- Password reset tokens -----

  datatype ResetToken = ResetToken(
    userId: UserId, expiresAt: Moment, usedAt: Option<Moment>, invalidatedAt: Option<Moment>)

  predicate Open(t: ResetToken) { t.usedAt.None? && t.invalidatedAt.None? }

  function CloseResets(resets: map<string, ResetToken>, used: string, now: Moment): map<string, ResetToken>
    requires used in resets
  {
    map k | k in resets ::
      if k == used then resets[k].(usedAt := Some(now))
      else if resets[k].userId == resets[used].userId && Open(resets[k]) then resets[k].(invalidatedAt := Some(now))
      else resets[k]
  }

  predicate CanReset(resets: map<string, ResetToken>, token: string, exists_: bool, now: Moment) {
    token in resets && Open(resets[token]) && resets[token].expiresAt > now && exists_
  }

  function OpenReset(resets: map<string, ResetToken>, user: UserId, token: string, lifetime: nat, now: Moment)
    : map<string, ResetToken>
  {
    (map k | k in resets ::
       if resets[k].userId == user && Open(resets[k]) then resets[k].(invalidatedAt := Some(now)) else resets[k])
    [token := ResetToken(user, now + lifetime, None, None)]
  }

  /** A reset closes the used token as used and the user's other open ones as invalid; every other token stays. */
  lemma CloseResetsExactly(resets: map<string, ResetToken>, used: string, now: Moment)
    requires used in resets && resets[used].usedAt.None? && resets[used].invalidatedAt.None?
    ensures var b := CloseResets(resets, used, now);
            && b.Keys == resets.Keys && b[used] == resets[used].(usedAt := Some(now))
            && forall k | k in resets && k != used ::
                 var t := resets[k];
                 if t.userId == resets[used].userId && t.usedAt.None? && t.invalidatedAt.None?
                 then b[k] == t.(invalidatedAt := Some(now)) else b[k] == t
  {}

  /** A new reset token is open and takes the place of the user's open ones; every other token stays. */
  lemma OpenResetExactly(resets: map<string, ResetToken>, user: UserId, token: string, lifetime: nat, now: Moment)
    requires token !in resets
    ensures var b := OpenReset(resets, user, token, lifetime, now);
            && b.Keys == resets.Keys + {token}
            && b[token].userId == user && b[token].expiresAt == now + lifetime
            && b[token].usedAt.None? && b[token].invalidatedAt.None?
            && forall k | k in resets ::
                 var t := resets[k];
                 if t.userId == user && t.usedAt.None? && t.invalidatedAt.None?
                 then b[k] == t.(invalidatedAt := Some(now)) else b[k] == t
  {}

  // ----- Bulk updates -----

  /** A matching row that was open is closed with this time and reason; any other row is as it was. */
  ghost predicate RowSwept(a: Record, b: Record, which: Record -> bool, now: Moment, reason: string) {
    if which(a) && a.revokedAt.None? then b == a.(revokedAt := Some(now), reason := Some(reason)) else b == a
  }

  ghost predicate Swept(a: Rows, b: Rows, which: Record -> bool, now: Moment, reason: string) {
    b.Keys == a.Keys && forall j | j in a :: RowSwept(a[j], b[j], which, now, reason)
  }

  lemma SweptIsRevokeWhere(a: Rows, b: Rows, which: Record -> bool, now: Moment, reason: string)
    requires Swept(a, b, which, now, reason)
    ensures b == RevokeWhere(a, which, now, reason)
  {
    forall j | j in a ensures b[j] == RevokeWhere(a, which, now, reason)[j] {
      assert RowSwept(a[j], b[j], which, now, reason);
    }
  }

  /** The record belongs to the family of the presented genuine token of the user. */
  predicate OwnFamily(rows: Rows, user: UserId, cookie: Option<Token>, decoded: Decoded, j: nat) {
    && j in rows && cookie.Some? && decoded.Genuine? && cookie.value.jti in rows
    && rows[cookie.value.jti].userId == user && rows[j].family == rows[cookie.value.jti].family
  }

  // ----- The service -----

  class SessionService {
    const settings: Settings
    var rows: Rows
    var active: set<UserId>
    var passwords: map<UserId, string>
    var resets: map<string, ResetToken>

    constructor (s: Settings)
      ensures settings == s && rows == map[] && active == {} && passwords == map[] && resets == map[]
    {
      settings, rows, active, passwords, resets := s, map[], {}, map[], map[];
    }

    /** The one live record of a new family; a zero time and an empty list leave no claim. */
    method IssueSession(user: UserId, amr: Option<seq<string>>, family: nat, jti: nat, now: Moment)
      returns (token: Token)
      requires jti !in rows && forall j | j in rows :: rows[j].family != family
      modifies this`rows
      ensures rows.Keys == old(rows).Keys + {jti} && forall j | j in old(rows) :: rows[j] == old(rows)[j]
      ensures rows[jti].token == token && rows[jti].family == family && rows[jti].userId == user
      ensures rows[jti].revokedAt.None? && rows[jti].rotatedAt.None? && rows[jti].expiresAt == now + settings.lifetime
      ensures token.subject == user && token.jti == jti
      ensures token.authTime == if now == 0 then None else Some(now)
      ensures token.amr == if amr == Some([]) then None else amr
    {
      var r := NewRecord(settings, user, family, Some(now), amr, jti, now);
      rows := rows[jti := r];
      return r.token;
    }

    /** The bulk update, row by row. */
    method CloseRows(which: Record -> bool, now: Moment, reason: string)
      modifies this`rows
      ensures Swept(old(rows), rows, which, now, reason)
    {
      var rest := rows.Keys;
      while rest != {}
        invariant rest <= rows.Keys == old(rows).Keys
        invariant forall j | j in rest :: rows[j] == old(rows)[j]
        invariant forall j | j in rows && j !in rest :: RowSwept(old(rows)[j], rows[j], which, now, reason)
      {
        var j :| j in rest;
        if which(rows[j]) && rows[j].revokedAt.None? {
          rows := rows[j := rows[j].(revokedAt := Some(now), reason := Some(reason))];
        }
        rest := rest - {j};
      }
    }

    method RevokeTokenFamily(family: nat, now: Moment, reason: string)
      modifies this`rows
      ensures Swept(old(rows), rows, OfFamily(family), now, reason)
      ensures forall j | j in rows && rows[j].family == family :: rows[j].revokedAt.Some?
    {
      CloseRows(OfFamily(family), now, reason);
    }

    method RefreshSession(token: Token, decoded: Decoded, next: nat, now: Moment)
      returns (outcome: Result<Token, Refused>)
      modifies this`rows
      ensures (rows, outcome) == Refresh(settings, old(rows), active, token, decoded, next, now)
    {
      if decoded.Expired? { return Err(TokenExpired); }
      if decoded.Forged? { return Err(TokenInvalid); }
      if token.jti !in rows { return Err(TokenInvalid); }
      var record := rows[token.jti];
      if record.token != token || record.userId != token.subject { return Err(TokenInvalid); }
      if record.rotatedAt.Some? {
        if now - record.rotatedAt.value <= settings.grace { return Err(AlreadyRotated); }
        RevokeTokenFamily(record.family, now, "refresh_token_reuse");
        SweptIsRevokeWhere(old(rows), rows, OfFamily(record.family), now, "refresh_token_reuse");
        return Err(ReuseDetected);
      }
      if record.revokedAt.Some? { return Err(SessionRevoked); }
      if record.expiresAt <= now {
        rows := rows[token.jti := record.(revokedAt := Some(now), reason := Some("expired"))];
        return Err(TokenExpired);
      }
      if record.userId !in active {
        RevokeTokenFamily(record.family, now, "user_inactive");
        SweptIsRevokeWhere(old(rows), rows, OfFamily(record.family), now, "user_inactive");
        return Err(UserInactive);
      }
      var nextRecord := NewRecord(settings, record.userId, record.family, token.authTime, token.amr, next, now);
      rows := rows[token.jti := record.(revokedAt := Some(now), rotatedAt := Some(now), replacedBy := Some(next),
                                        reason := Some("rotated"))];
      rows := rows[next := nextRecord];
      return Ok(nextRecord.token);
    }

    /** A genuine, known token closes its whole family and nothing else. */
    method RevokeCurrentSession(token: Token, decoded: Decoded, now: Moment)
      modifies this`rows
      ensures !(decoded.Genuine? && token.jti in old(rows)) ==> rows == old(rows)
      ensures decoded.Genuine? && token.jti in old(rows) ==>
                var family := old(rows)[token.jti].family;
                && Swept(old(rows), rows, OfFamily(family), now, "logout")
                && forall j | j in rows && rows[j].family == family :: rows[j].revokedAt.Some?
    {
      if decoded.Genuine? && token.jti in rows { RevokeTokenFamily(rows[token.jti].family, now, "logout"); }
    }

    method RevokeAllSessions(user: UserId, now: Moment, reason: string)
      modifies this`rows
      ensures Swept(old(rows), rows, OfUser(user), now, reason)
      ensures forall j | j in rows && rows[j].userId == user :: rows[j].revokedAt.Some?
    {
      CloseRows(OfUser(user), now, reason);
    }

    /** The family of the presented cookie survives, if it belongs to the user; every other one of the user ends. */
    method RevokeOtherSessions(user: UserId, cookie: Option<Token>, decoded: Decoded, now: Moment, reason: string)
      modifies this`rows
      ensures rows.Keys == old(rows).Keys
      ensures forall j | j in rows && (rows[j].userId != user || OwnFamily(old(rows), user, cookie, decoded, j)) ::
                rows[j] == old(rows)[j]
      ensures forall j | j in rows && rows[j].userId == user && !OwnFamily(old(rows), user, cookie, decoded, j) ::
                rows[j].revokedAt.Some?
      ensures Swept(old(rows), rows, OfUserOutside(user, KeptFamily(old(rows), user, cookie, decoded)), now, reason)
    {
      var current := None;
      if cookie.Some? && decoded.Genuine? && cookie.value.jti in rows && rows[cookie.value.jti].userId == user {
        current := Some(rows[cookie.value.jti].family);
      }
      CloseRows(OfUserOutside(user, current), now, reason);
    }

    /** A new reset token takes the place of the user's open ones. */
    method ForgotPassword(user: UserId, token: string, lifetime: nat, now: Moment)
      requires token !in resets
      modifies this`resets
      ensures user !in active ==> resets == old(resets)
      ensures user in active ==> resets == OpenReset(old(resets), user, token, lifetime, now)
      ensures user in active ==>
                && resets.Keys == old(resets).Keys + {token} && resets[token].expiresAt == now + lifetime
                && (forall k | k in resets && resets[k].userId == user :: Open(resets[k]) <==> k == token)
                && (forall k | k in old(resets) && (resets[k].userId != user || !Open(old(resets)[k])) ::
                      resets[k] == old(resets)[k])
    {
      if user in active { resets := OpenReset(resets, user, token, lifetime, now); }
    }

    method ResetPassword(token: string, password: string, exists_: bool, now: Moment) returns (ok: bool)
      modifies this`rows, this`passwords, this`resets
      ensures ok <==>
                && token in old(resets) && exists_ && old(resets)[token].expiresAt > now
                && old(resets)[token].usedAt.None? && old(resets)[token].invalidatedAt.None?
      ensures ok ==> var user := old(resets)[token].userId;
                     && passwords == old(passwords)[user := password]
                     && resets == CloseResets(old(resets), token, now)
                     && resets[token].usedAt == Some(now)
                     && (forall k | k in resets && resets[k].userId == user :: !Open(resets[k]))
                     && (forall k | k in resets && resets[k].userId != user :: resets[k] == old(resets)[k])
                     && Swept(old(rows), rows, OfUser(user), now, "password_reset")
                     && forall j | j in rows && rows[j].userId == user :: rows[j].revokedAt.Some?
      ensures !ok ==> rows == old(rows) && passwords == old(passwords) && resets == old(resets)
    {
      if token !in resets || !Open(resets[token]) { return false; }
      if resets[token].expiresAt <= now { return false; }
      if !exists_ { return false; }
      var user := resets[token].userId;
      passwords := passwords[user := password];
      resets := CloseResets(resets, token, now);
      RevokeAllSessions(user, now, "password_reset");
      return true;
    }

    method ChangePassword(user: UserId, current: string, password: string, now: Moment) returns (ok: bool)
      modifies this`rows, this`passwords
      ensures ok <==> user in old(passwords) && old(passwords)[user] == current
      ensures ok ==> passwords == old(passwords)[user := password]
                     && Swept(old(rows), rows, OfUser(user), now, "password_changed")
                     && forall j | j in rows && rows[j].userId == user :: rows[j].revokedAt.Some?
      ensures !ok ==> rows == old(rows) && passwords == old(passwords)
    {
      if user !in passwords || passwords[user] != current { return false; }
      passwords := passwords[user := password];
      RevokeAllSessions(user, now, "password_changed");
      return true;
    }
  }

  function KeptFamily(rows: Rows, user: UserId, cookie: Option<Token>, decoded: Decoded): Option<nat> {
    if cookie.Some? && decoded.Genuine? && cookie.value.jti in rows && rows[cookie.value.jti].userId == user
    then Some(rows[cookie.value.jti].family) else None
  }

  // ----- A family is one chain -----

  predicate Live(rows: Rows, j: nat) { j in rows && rows[j].revokedAt.None? }

  ghost predicate InFamily(rows: Rows, j: nat, f: nat) { j in rows && rows[j].family == f }

  ghost predicate Distinct(s: seq<nat>) { forall i, k | 0 <= i < k < |s| :: s[i] != s[k] }

  /** Each link was replaced by the next one, rotated and revoked; the tip was replaced by none. */
  ghost predicate Linked(rows: Rows, chain: seq<nat>, i: nat)
    requires i < |chain|
  {
    && chain[i] in rows
    && var r := rows[chain[i]];
       if i + 1 < |chain| then r.replacedBy == Some(chain[i + 1]) && r.rotatedAt.Some? && r.revokedAt.Some?
       else r.replacedBy.None? && r.rotatedAt.None?
  }

  /** All tokens of the chain carry the same subject, user, authentication time and methods. */
  ghost predicate SameOrigin(rows: Rows, chain: seq<nat>, i: nat)
    requires i < |chain|
  {
    && chain[i] in rows && chain[0] in rows
    && var r := rows[chain[i]];
       && r.token.jti == chain[i] && r.token.subject == r.userId
       && r.userId == rows[chain[0]].userId && r.token.authTime == rows[chain[0]].token.authTime
       && r.token.amr == rows[chain[0]].token.amr && r.token.authTime != Some(0) && r.token.amr != Some([])
  }

  ghost predicate IsChain(rows: Rows, f: nat, chain: seq<nat>) {
    && Distinct(chain)
    && (forall j :: j in chain <==> InFamily(rows, j, f))
    && (forall i: nat | i < |chain| :: Linked(rows, chain, i) && SameOrigin(rows, chain, i))
  }

  /** The records of every family form one chain through their successors. */
  ghost predicate HasChain(rows: Rows, f: nat) { exists chain :: IsChain(rows, f, chain) }

  ghost predicate Chained(rows: Rows) { forall f: nat :: HasChain(rows, f) }

  /** Only the tip of a family can be live, so at most one record is. */
  lemma AtMostOneLive(rows: Rows, i: nat, j: nat)
    requires Chained(rows) && Live(rows, i) && Live(rows, j) && rows[i].family == rows[j].family
    ensures i == j && rows[i].rotatedAt.None? && rows[i].replacedBy.None?
  {
    var f := rows[i].family;
    assert HasChain(rows, f);
    var chain :| IsChain(rows, f, chain);
    assert InFamily(rows, i, f) && InFamily(rows, j, f);
    var a :| 0 <= a < |chain| && chain[a] == i;
    var b :| 0 <= b < |chain| && chain[b] == j;
    assert Linked(rows, chain, a) && Linked(rows, chain, b);
  }

  lemma SameClaims(rows: Rows, i: nat, j: nat)
    requires Chained(rows) && i in rows && j in rows && rows[i].family == rows[j].family
    ensures rows[i].token.authTime == rows[j].token.authTime && rows[i].token.amr == rows[j].token.amr
    ensures rows[i].userId == rows[j].userId
  {
    var f := rows[i].family;
    assert HasChain(rows, f);
    var chain :| IsChain(rows, f, chain);
    assert InFamily(rows, i, f) && InFamily(rows, j, f);
    var a :| 0 <= a < |chain| && chain[a] == i;
    var b :| 0 <= b < |chain| && chain[b] == j;
    assert SameOrigin(rows, chain, a) && SameOrigin(rows, chain, b);
  }

  // ----- Preservation -----

  /** Rows changed only by revoking: a revocation may set the time and reason of an unrevoked row. */
  ghost predicate OnlyRevokes(a: Rows, b: Rows) {
    && a.Keys == b.Keys
    && forall j | j in a ::
         b[j] == a[j].(revokedAt := b[j].revokedAt, reason := b[j].reason) && (a[j].revokedAt.Some? ==> b[j] == a[j])
  }

  lemma RevokingKeepsChains(a: Rows, b: Rows)
    requires Chained(a) && OnlyRevokes(a, b)
    ensures Chained(b)
  {
    forall f: nat ensures HasChain(b, f) {
      assert HasChain(a, f);
      var chain :| IsChain(a, f, chain);
      forall j ensures j in chain <==> InFamily(b, j, f) { assert j in chain <==> InFamily(a, j, f); }
      forall i: nat | i < |chain| ensures Linked(b, chain, i) && SameOrigin(b, chain, i) {
        assert Linked(a, chain, i) && SameOrigin(a, chain, i);
      }
      assert IsChain(b, f, chain);
    }
  }

  lemma RevokeWhereOnlyRevokes(rows: Rows, which: Record -> bool, now: Moment, reason: string)
    ensures OnlyRevokes(rows, RevokeWhere(rows, which, now, reason))
  {}

  lemma IssueKeepsChains(rows: Rows, r: Record, jti: nat)
    requires Chained(rows) && jti !in rows && forall j | j in rows :: rows[j].family != r.family
    requires r.token.jti == jti && r.token.subject == r.userId && r.token.authTime != Some(0) && r.token.amr != Some([])
    requires r.replacedBy.None? && r.rotatedAt.None?
    ensures Chained(rows[jti := r])
  {
    var b := rows[jti := r];
    forall f: nat ensures HasChain(b, f) {
      if f == r.family {
        var chain := [jti];
        assert Linked(b, chain, 0) && SameOrigin(b, chain, 0);
        assert IsChain(b, f, chain);
      } else {
        assert HasChain(rows, f);
        var chain :| IsChain(rows, f, chain);
        OtherChainKept(rows, b, f, chain);
      }
    }
  }

  lemma OtherChainKept(a: Rows, b: Rows, f: nat, chain: seq<nat>)
    requires IsChain(a, f, chain)
    requires forall j | InFamily(a, j, f) :: j in b && b[j] == a[j]
    requires forall j | InFamily(b, j, f) :: InFamily(a, j, f)
    ensures IsChain(b, f, chain)
  {
    forall i: nat | i < |chain| ensures Linked(b, chain, i) && SameOrigin(b, chain, i) {
      assert chain[i] in chain && chain[0] in chain;
      assert InFamily(a, chain[i], f) && InFamily(a, chain[0], f);
      assert Linked(a, chain, i) && SameOrigin(a, chain, i);
    }
  }

  /** Rotating the tip makes the chain one longer. */
  lemma RotationExtendsChain(s: Settings, rows: Rows, token: Token, next: nat, now: Moment, chain: seq<nat>)
    requires Known(rows, token) && rows[token.jti].rotatedAt.None? && next !in rows
    requires IsChain(rows, rows[token.jti].family, chain)
    ensures IsChain(Rotated(s, rows, token, next, now), rows[token.jti].family, chain + [next])
  {
    var f, b, c := rows[token.jti].family, Rotated(s, rows, token, next, now), chain + [next];
    var tip := |chain| - 1;
    assert InFamily(rows, token.jti, f);
    var k :| 0 <= k < |chain| && chain[k] == token.jti;
    assert Linked(rows, chain, k);
    assert k == tip;
    assert SameOrigin(rows, chain, tip);
    assert next in chain <==> InFamily(rows, next, f);
    forall j ensures j in c <==> InFamily(b, j, f) { assert j in chain <==> InFamily(rows, j, f); }
    forall i: nat | i < |c| ensures Linked(b, c, i) && SameOrigin(b, c, i) {
      if i < |chain| { assert Linked(rows, chain, i) && SameOrigin(rows, chain, i); }
    }
  }

  lemma RotationKeepsChains(s: Settings, rows: Rows, token: Token, next: nat, now: Moment)
    requires Chained(rows) && Known(rows, token) && rows[token.jti].rotatedAt.None? && next !in rows
    ensures Chained(Rotated(s, rows, token, next, now))
  {
    hide IsChain;
    var b := Rotated(s, rows, token, next, now);
    forall f: nat ensures HasChain(b, f) {
      assert HasChain(rows, f);
      var chain :| IsChain(rows, f, chain);
      if f == rows[token.jti].family {
        RotationExtendsChain(s, rows, token, next, now, chain);
      } else {
        OtherChainKept(rows, b, f, chain);
      }
    }
  }
}

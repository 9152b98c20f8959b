/**
 Second factors: login challenges with bounded attempts, TOTP counters, one-time recovery codes
 and passkey ceremonies, each transaction one step on the tables.
 */
module Mfa {
  import opened Wrappers

  type UserId = string
  type Moment = int

  /** The code that a stored secret shows at a counter. */
  type CodeAt = (nat, int) -> string

  datatype Settings = Settings(maxAttempts: nat, window: nat, challengeSeconds: nat, setupSeconds: nat,
    ceremonySeconds: nat, codeAt: CodeAt)

  /** A stored TOTP secret, named by the random choice that made it. */
  datatype Method = Method(
    secret: nat, enabled: bool, setupExpiresAt: Option<Moment>, lastCounter: Option<int>, lastUsedAt: Option<Moment>)

  datatype RecoveryCode = RecoveryCode(userId: UserId, usedAt: Option<Moment>)

  datatype Challenge = Challenge(
    userId: UserId, expiresAt: Moment, usedAt: Option<Moment>, invalidatedAt: Option<Moment>, attempts: nat)

  /** A step-up ceremony, bound to the login challenge it was opened for. */
  datatype Ceremony = Ceremony(
    userId: UserId, challenge: nat, expiresAt: Moment,
    usedAt: Option<Moment>, invalidatedAt: Option<Moment>, attempts: nat)

  /** Recovery codes are named by their hash. */
  datatype Tables = Tables(
    methods: map<UserId, Method>, codes: map<string, RecoveryCode>, challenges: map<nat, Challenge>,
    ceremonies: map<nat, Ceremony>, active: set<UserId>)

  datatype Factor = Totp(code: string) | Recovery(hash: string)

  datatype Consumed = Counter(secret: nat, counter: int) | Code(hash: string)

  datatype Refused =
    | ChallengeInvalid | ChallengeUsed | ChallengeExpired | TooManyAttempts | FactorInvalid
    | AlreadyEnabled | SetupExpired | NotEnabled | PasswordInvalid | CeremonyInvalid | PasskeyInvalid

  // ----- Factors -----

  predicate IsDigit(c: char) { '0' <= c <= '9' }

  predicate SixDigits(code: string) { |code| == 6 && forall i | 0 <= i < 6 :: IsDigit(code[i]) }

  predicate IsSpace(c: char) {
    var n := c as int;
    0x09 <= n <= 0x0D || 0x1C <= n <= 0x20 || n == 0x85 || n == 0xA0 || n == 0x1680 || 0x2000 <= n <= 0x200A
    || n == 0x2028 || n == 0x2029 || n == 0x202F || n == 0x205F || n == 0x3000
  }

  /** str.strip: no white space at either end. */
  function Strip(s: string): (r: string)
    ensures r != [] ==> !IsSpace(r[0]) && !IsSpace(r[|r| - 1])
  {
    if s == [] then []
    else if IsSpace(s[0]) then Strip(s[1..])
    else if IsSpace(s[|s| - 1]) then Strip(s[..|s| - 1])
    else s
  }

  ghost predicate FirstMatch(s: Settings, secret: nat, code: string, now: Moment, c: int) {
    && now / 30 - s.window <= c <= now / 30 + s.window && s.codeAt(secret, c) == code
    && forall b | now / 30 - s.window <= b < c :: s.codeAt(secret, b) != code
  }

  function MatchFrom(s: Settings, secret: nat, code: string, c: int, last: int): (r: Option<int>)
    ensures r.Some? ==> c <= r.value <= last && s.codeAt(secret, r.value) == code
                        && forall b | c <= b < r.value :: s.codeAt(secret, b) != code
    ensures r.None? ==> forall b | c <= b <= last :: s.codeAt(secret, b) != code
    decreases last - c + 1
  {
    if c > last then None else if s.codeAt(secret, c) == code then Some(c) else MatchFrom(s, secret, code, c + 1, last)
  }

  /** The first counter of the window whose code is presented. */
  function MatchingCounter(s: Settings, secret: nat, code: string, now: Moment): (r: Option<int>)
    ensures r.Some? ==> SixDigits(code) && FirstMatch(s, secret, code, now, r.value)
    ensures r.None? && SixDigits(code) ==>
            forall c | now / 30 - s.window <= c <= now / 30 + s.window :: s.codeAt(secret, c) != code
  {
    if !SixDigits(code) then None else MatchFrom(s, secret, code, now / 30 - s.window, now / 30 + s.window)
  }

  method FindCounter(s: Settings, secret: nat, code: string, now: Moment) returns (counter: Option<int>)
    ensures counter == MatchingCounter(s, secret, code, now)
  {
    if !SixDigits(code) { return None; }
    var current := now / 30;
    var offset := 0 - s.window;
    while offset <= s.window
      invariant 0 - s.window <= offset <= s.window + 1
      invariant MatchingCounter(s, secret, code, now) ==
                MatchFrom(s, secret, code, current + offset, current + s.window)
    {
      if s.codeAt(secret, current + offset) == code { return Some(current + offset); }
      offset := offset + 1;
    }
    return None;
  }

  /** _consume_factor: which counter or code it would accept. */
  function Accepted(s: Settings, t: Tables, user: UserId, factor: Factor, now: Moment): Option<Consumed>
    requires user in t.methods
  {
    match factor
    case Totp(code) =>
      var m := t.methods[user];
      var c := MatchingCounter(s, m.secret, Strip(code), now);
      if c.Some? && (m.lastCounter.Some? ==> c.value > m.lastCounter.value)
      then Some(Counter(m.secret, c.value))
      else None
    case Recovery(h) =>
      if h in t.codes && t.codes[h].userId == user && t.codes[h].usedAt.None? then Some(Code(h)) else None
  }

  /** The tables after the accepted factor was consumed. */
  function Consume(t: Tables, user: UserId, used: Consumed, now: Moment): Tables
    requires user in t.methods && (used.Code? ==> used.hash in t.codes)
  {
    match used
    case Counter(_, c) =>
      t.(methods := t.methods[user := t.methods[user].(lastCounter := Some(c), lastUsedAt := Some(now))])
    case Code(h) =>
      t.(codes := t.codes[h := t.codes[h].(usedAt := Some(now))],
         methods := t.methods[user := t.methods[user].(lastUsedAt := Some(now))])
  }

  predicate Enabled(t: Tables, user: UserId) { user in t.methods && t.methods[user].enabled }

  // ----- Login challenges -----

  predicate OpenChallenge(c: Challenge) { c.usedAt.None? && c.invalidatedAt.None? }

  function Invalidate(t: Tables, ch: nat, now: Moment): Tables
    requires ch in t.challenges
  {
    t.(challenges := t.challenges[ch := t.challenges[ch].(invalidatedAt := Some(now))])
  }

  function Succeed(t: Tables, ch: nat, now: Moment): Tables
    requires ch in t.challenges
  {
    t.(challenges := t.challenges[ch := t.challenges[ch].(usedAt := Some(now))])
  }

  /** A failed code counts; the last allowed failure closes the challenge. */
  function CountFailure(s: Settings, t: Tables, ch: nat, now: Moment): Tables
    requires ch in t.challenges
  {
    var c := t.challenges[ch];
    t.(challenges := t.challenges[ch := c.(attempts := c.attempts + 1,
                                           invalidatedAt := if c.attempts + 1 >= s.maxAttempts then Some(now)
                                             else c.invalidatedAt)])
  }

  function CreateChallenge(s: Settings, t: Tables, user: UserId, ch: nat, now: Moment): Tables {
    var closed := map k | k in t.challenges ::
      if t.challenges[k].userId == user && OpenChallenge(t.challenges[k])
      then t.challenges[k].(invalidatedAt := Some(now)) else t.challenges[k];
    t.(challenges := closed[ch := Challenge(user, now + s.challengeSeconds, None, None, 0)])
  }

  /** verify_login_challenge */
  function VerifyLogin(s: Settings, t: Tables, ch: nat, factor: Factor, now: Moment)
    : (Tables, Result<Consumed, Refused>)
  {
    if ch !in t.challenges then (t, Err(ChallengeInvalid))
    else
      var c := t.challenges[ch];
      if c.usedAt.Some? then (t, Err(ChallengeUsed))
      else if c.invalidatedAt.Some? then (t, Err(ChallengeInvalid))
      else if c.expiresAt <= now then (Invalidate(t, ch, now), Err(ChallengeExpired))
      else if c.attempts >= s.maxAttempts then (Invalidate(t, ch, now), Err(TooManyAttempts))
      else if !Enabled(t, c.userId) || c.userId !in t.active then (Invalidate(t, ch, now), Err(ChallengeInvalid))
      else
        match Accepted(s, t, c.userId, factor, now)
        case None =>
          (CountFailure(s, t, ch, now), Err(if c.attempts + 1 >= s.maxAttempts then TooManyAttempts else FactorInvalid))
        case Some(used) => (Succeed(Consume(t, c.userId, used, now), ch, now), Ok(used))
  }

  // ----- The passkey path -----

  /** What verifying the presented passkey finds: no such credential of the user, a bad signature, or a match. */
  datatype Passkey = UnknownCredential | HandleMismatch | BadSignature | Matching

  predicate Usable(c: Challenge, now: Moment) { OpenChallenge(c) && c.expiresAt > now }

  /** mfa_options: a ceremony for a usable challenge. */
  function OpenCeremony(s: Settings, t: Tables, ch: nat, ceremony: nat, now: Moment): (Tables, bool) {
    if ch in t.challenges && Usable(t.challenges[ch], now) then
      var row := Ceremony(t.challenges[ch].userId, ch, now + s.ceremonySeconds, None, None, 0);
      (t.(ceremonies := t.ceremonies[ceremony := row]), true)
    else (t, false)
  }

  function CountCeremony(t: Tables, ceremony: nat): Tables
    requires ceremony in t.ceremonies
  {
    t.(ceremonies := t.ceremonies[ceremony := t.ceremonies[ceremony].(attempts := t.ceremonies[ceremony].attempts + 1)])
  }

  /** verify_mfa: failures count on the ceremony, never on the challenge. */
  function VerifyPasskey(t: Tables, ch: nat, ceremony: nat, answer: Passkey, now: Moment)
    : (Tables, Result<UserId, Refused>)
  {
    if ch !in t.challenges || !Usable(t.challenges[ch], now) then (t, Err(ChallengeInvalid))
    else if ceremony !in t.ceremonies || t.ceremonies[ceremony].invalidatedAt.Some?
      || t.ceremonies[ceremony].usedAt.Some? then
      (t, Err(CeremonyInvalid))
    else
      var e := t.ceremonies[ceremony];
      if e.expiresAt <= now then
        (t.(ceremonies := t.ceremonies[ceremony := e.(invalidatedAt := Some(now))]), Err(CeremonyInvalid))
      else if e.challenge != ch || e.userId != t.challenges[ch].userId then (t, Err(CeremonyInvalid))
      else if answer.UnknownCredential? then (CountCeremony(t, ceremony), Err(PasskeyInvalid))
      else if e.userId !in t.active || answer.HandleMismatch? then (t, Err(PasskeyInvalid))
      else if answer.BadSignature? then (CountCeremony(t, ceremony), Err(PasskeyInvalid))
      else (Succeed(t.(ceremonies := t.ceremonies[ceremony := e.(usedAt := Some(now))]), ch, now), Ok(e.userId))
  }

  // ----- Setup, confirmation and sensitive actions -----

  function StartSetup(s: Settings, t: Tables, user: UserId, secret: nat, now: Moment): (Tables, Result<nat, Refused>) {
    if Enabled(t, user) then (t, Err(AlreadyEnabled))
    else
      var lastUsedAt := if user in t.methods then t.methods[user].lastUsedAt else None;
      var m := Method(secret, false, Some(now + s.setupSeconds), None, lastUsedAt);
      (t.(methods := t.methods[user := m]), Ok(secret))
  }

  function ReplaceCodes(t: Tables, user: UserId, hashes: set<string>): Tables {
    t.(codes := map h | h in t.codes.Keys + hashes && (h in hashes || t.codes[h].userId != user) ::
                  if h in hashes then RecoveryCode(user, None) else t.codes[h])
  }

  function ConfirmSetup(s: Settings, t: Tables, user: UserId, code: string, hashes: set<string>, now: Moment)
    : (Tables, Result<Consumed, Refused>)
  {
    if user !in t.methods || t.methods[user].enabled || t.methods[user].setupExpiresAt.None?
       || t.methods[user].setupExpiresAt.value <= now then (t, Err(SetupExpired))
    else
      var m := t.methods[user];
      match MatchingCounter(s, m.secret, code, now)
      case None => (t, Err(FactorInvalid))
      case Some(c) =>
        var enabled := Method(m.secret, true, None, Some(c), Some(now));
        (ReplaceCodes(t.(methods := t.methods[user := enabled]), user, hashes), Ok(Counter(m.secret, c)))
  }

  /** verify_sensitive_action: a failure leaves nothing behind. */
  function VerifySensitive(s: Settings, t: Tables, user: UserId, passwordOk: bool, factor: Factor, now: Moment)
    : Result<Consumed, Refused>
  {
    if !Enabled(t, user) then Err(NotEnabled)
    else if !passwordOk then Err(PasswordInvalid)
    else match Accepted(s, t, user, factor, now)
         case None => Err(FactorInvalid)
         case Some(used) => Ok(used)
  }

  function Regenerate(s: Settings, t: Tables, user: UserId, passwordOk: bool, factor: Factor, hashes: set<string>,
      now: Moment)
    : (Tables, Result<Consumed, Refused>)
  {
    match VerifySensitive(s, t, user, passwordOk, factor, now)
    case Err(e) => (t, Err(e))
    case Ok(used) => (ReplaceCodes(Consume(t, user, used, now), user, hashes), Ok(used))
  }

  function Disabled(t: Tables, user: UserId, now: Moment): Tables {
    t.(codes := map h | h in t.codes && t.codes[h].userId != user :: t.codes[h],
       methods := t.methods - {user},
       challenges := map k | k in t.challenges ::
         if t.challenges[k].userId == user && t.challenges[k].usedAt.None?
         then t.challenges[k].(invalidatedAt := Some(now))
         else t.challenges[k])
  }

  function Disable(s: Settings, t: Tables, user: UserId, passwordOk: bool, factor: Factor, now: Moment)
    : (Tables, Result<Consumed, Refused>)
  {
    match VerifySensitive(s, t, user, passwordOk, factor, now)
    case Err(e) => (t, Err(e))
    case Ok(used) => (Disabled(Consume(t, user, used, now), user, now), Ok(used))
  }

  // ----- The service -----

  class MfaService {
    const settings: Settings
    var tables: Tables

    constructor (s: Settings)
      ensures settings == s && tables == Tables(map[], map[], map[], map[], {})
    {
      settings, tables := s, Tables(map[], map[], map[], map[], {});
    }

    method CreateLoginChallenge(user: UserId, ch: nat, now: Moment)
      modifies this
      ensures tables == CreateChallenge(settings, old(tables), user, ch, now)
    {
      var open := set k | k in tables.challenges
                          && tables.challenges[k].userId == user && OpenChallenge(tables.challenges[k]);
      tables := tables.(challenges := map k | k in tables.challenges ::
        if k in open then tables.challenges[k].(invalidatedAt := Some(now)) else tables.challenges[k]);
      tables := tables.(challenges :=
        tables.challenges[ch := Challenge(user, now + settings.challengeSeconds, None, None, 0)]);
    }

    method ConsumeFactor(user: UserId, factor: Factor, now: Moment) returns (used: Option<Consumed>)
      requires user in tables.methods
      modifies this
      ensures used == Accepted(settings, old(tables), user, factor, now)
      ensures tables == if used.Some? then Consume(old(tables), user, used.value, now) else old(tables)
    {
      match factor {
        case Totp(code) =>
          var m := tables.methods[user];
          var counter := FindCounter(settings, m.secret, Strip(code), now);
          if counter.None? || (m.lastCounter.Some? && counter.value <= m.lastCounter.value) { return None; }
          tables := tables.(methods := tables.methods[user := m.(lastCounter := counter, lastUsedAt := Some(now))]);
          return Some(Counter(m.secret, counter.value));
        case Recovery(h) =>
          if h !in tables.codes || tables.codes[h].userId != user || tables.codes[h].usedAt.Some? { return None; }
          tables := tables.(codes := tables.codes[h := tables.codes[h].(usedAt := Some(now))]);
          tables := tables.(methods := tables.methods[user := tables.methods[user].(lastUsedAt := Some(now))]);
          return Some(Code(h));
      }
    }

    method Close(ch: nat, now: Moment)
      requires ch in tables.challenges
      modifies this
      ensures tables == Invalidate(old(tables), ch, now)
    {
      tables := tables.(challenges := tables.challenges[ch := tables.challenges[ch].(invalidatedAt := Some(now))]);
    }

    method VerifyLoginChallenge(ch: nat, factor: Factor, now: Moment) returns (outcome: Result<Consumed, Refused>)
      modifies this
      ensures (tables, outcome) == VerifyLogin(settings, old(tables), ch, factor, now)
    {
      if ch !in tables.challenges { return Err(ChallengeInvalid); }
      var challenge := tables.challenges[ch];
      if challenge.usedAt.Some? { return Err(ChallengeUsed); }
      if challenge.invalidatedAt.Some? { return Err(ChallengeInvalid); }
      if challenge.expiresAt <= now {
        Close(ch, now);
        return Err(ChallengeExpired);
      }
      if challenge.attempts >= settings.maxAttempts {
        Close(ch, now);
        return Err(TooManyAttempts);
      }
      var user := challenge.userId;
      if !Enabled(tables, user) || user !in tables.active {
        Close(ch, now);
        return Err(ChallengeInvalid);
      }
      var used := ConsumeFactor(user, factor, now);
      if used.None? {
        challenge := challenge.(attempts := challenge.attempts + 1);
        var blocked := challenge.attempts >= settings.maxAttempts;
        if blocked { challenge := challenge.(invalidatedAt := Some(now)); }
        tables := tables.(challenges := tables.challenges[ch := challenge]);
        return Err(if blocked then TooManyAttempts else FactorInvalid);
      }
      tables := tables.(challenges := tables.challenges[ch := challenge.(usedAt := Some(now))]);
      return Ok(used.value);
    }

    method VerifyMfa(ch: nat, ceremony: nat, answer: Passkey, now: Moment) returns (outcome: Result<UserId, Refused>)
      modifies this
      ensures (tables, outcome) == VerifyPasskey(old(tables), ch, ceremony, answer, now)
    {
      if ch !in tables.challenges || !Usable(tables.challenges[ch], now) { return Err(ChallengeInvalid); }
      var challenge := tables.challenges[ch];
      if ceremony !in tables.ceremonies || tables.ceremonies[ceremony].invalidatedAt.Some? {
        return Err(CeremonyInvalid);
      }
      var e := tables.ceremonies[ceremony];
      if e.usedAt.Some? { return Err(CeremonyInvalid); }
      if e.expiresAt <= now {
        tables := tables.(ceremonies := tables.ceremonies[ceremony := e.(invalidatedAt := Some(now))]);
        return Err(CeremonyInvalid);
      }
      if e.challenge != ch || e.userId != challenge.userId { return Err(CeremonyInvalid); }
      if answer.UnknownCredential? || (answer.BadSignature? && e.userId in tables.active) {
        tables := tables.(ceremonies := tables.ceremonies[ceremony := e.(attempts := e.attempts + 1)]);
        return Err(PasskeyInvalid);
      }
      if e.userId !in tables.active || answer.HandleMismatch? { return Err(PasskeyInvalid); }
      tables := tables.(ceremonies := tables.ceremonies[ceremony := e.(usedAt := Some(now))],
                        challenges := tables.challenges[ch := challenge.(usedAt := Some(now))]);
      return Ok(e.userId);
    }

    method StartTotpSetup(user: UserId, secret: nat, now: Moment) returns (outcome: Result<nat, Refused>)
      modifies this
      ensures (tables, outcome) == StartSetup(settings, old(tables), user, secret, now)
    {
      if Enabled(tables, user) { return Err(AlreadyEnabled); }
      var m := Method(secret, false, Some(now + settings.setupSeconds), None, None);
      if user in tables.methods {
        m := tables.methods[user].(secret := secret, setupExpiresAt := m.setupExpiresAt, lastCounter := None);
      }
      tables := tables.(methods := tables.methods[user := m]);
      return Ok(secret);
    }

    method ReplaceRecoveryCodes(user: UserId, hashes: set<string>)
      modifies this
      ensures tables == ReplaceCodes(old(tables), user, hashes)
    {
      var kept := map h | h in tables.codes && tables.codes[h].userId != user :: tables.codes[h];
      tables := tables.(codes := kept + map h | h in hashes :: RecoveryCode(user, None));
    }

    method ConfirmTotpSetup(user: UserId, code: string, hashes: set<string>, now: Moment)
      returns (outcome: Result<Consumed, Refused>)
      modifies this
      ensures (tables, outcome) == ConfirmSetup(settings, old(tables), user, code, hashes, now)
    {
      if user !in tables.methods { return Err(SetupExpired); }
      var m := tables.methods[user];
      if m.enabled || m.setupExpiresAt.None? || m.setupExpiresAt.value <= now { return Err(SetupExpired); }
      var counter := FindCounter(settings, m.secret, code, now);
      if counter.None? { return Err(FactorInvalid); }
      tables := tables.(methods := tables.methods[user := Method(m.secret, true, None, counter, Some(now))]);
      ReplaceRecoveryCodes(user, hashes);
      return Ok(Counter(m.secret, counter.value));
    }

    method VerifySensitiveAction(user: UserId, passwordOk: bool, factor: Factor, now: Moment)
      returns (outcome: Result<Consumed, Refused>)
      modifies this
      ensures outcome == VerifySensitive(settings, old(tables), user, passwordOk, factor, now)
      ensures tables == if outcome.Ok? then Consume(old(tables), user, outcome.value, now) else old(tables)
    {
      if !Enabled(tables, user) { return Err(NotEnabled); }
      if !passwordOk { return Err(PasswordInvalid); }
      var used := ConsumeFactor(user, factor, now);
      if used.None? { return Err(FactorInvalid); }
      return Ok(used.value);
    }

    method RegenerateRecoveryCodes(user: UserId, passwordOk: bool, factor: Factor, hashes: set<string>, now: Moment)
      returns (outcome: Result<Consumed, Refused>)
      modifies this
      ensures (tables, outcome) == Regenerate(settings, old(tables), user, passwordOk, factor, hashes, now)
    {
      outcome := VerifySensitiveAction(user, passwordOk, factor, now);
      if outcome.Ok? { ReplaceRecoveryCodes(user, hashes); }
    }

    method DisableMfa(user: UserId, passwordOk: bool, factor: Factor, now: Moment)
      returns (outcome: Result<Consumed, Refused>)
      modifies this
      ensures (tables, outcome) == Disable(settings, old(tables), user, passwordOk, factor, now)
    {
      outcome := VerifySensitiveAction(user, passwordOk, factor, now);
      if outcome.Ok? {
        tables := tables.(codes := map h | h in tables.codes && tables.codes[h].userId != user :: tables.codes[h]);
        tables := tables.(methods := tables.methods - {user});
        tables := tables.(challenges := map k | k in tables.challenges ::
          if tables.challenges[k].userId == user && tables.challenges[k].usedAt.None?
          then tables.challenges[k].(invalidatedAt := Some(now))
          else tables.challenges[k]);
      }
    }
  }
}

/**
 What each second-factor operation answers and what it leaves behind, for every input and row by
 row: the guards in the fields of the stored rows, the refusals with their effect.
 */
module MfaExactly {
  import opened Mfa
  import opened Wrappers

  // ----- Factors -----

  lemma SixDigitsExactly(code: string)
    ensures SixDigits(code) <==>
              |code| == 6 && forall c | c in code :: c in {'0', '1', '2', '3', '4', '5', '6', '7', '8', '9'}
  {
    if SixDigits(code) { assert forall c | c in code :: IsDigit(c); }
    if |code| == 6 && forall c | c in code :: c in {'0', '1', '2', '3', '4', '5', '6', '7', '8', '9'} {
      forall i | 0 <= i < 6 ensures IsDigit(code[i]) { assert code[i] in code; }
    }
  }

  /** The white space of str.strip, code point by code point. */
  lemma SpaceExactly(c: char)
    ensures IsSpace(c) <==>
              c as int in {0x09, 0x0A, 0x0B, 0x0C, 0x0D, 0x1C, 0x1D, 0x1E, 0x1F, 0x20, 0x85, 0xA0, 0x1680,
                           0x2000, 0x2001, 0x2002, 0x2003, 0x2004, 0x2005, 0x2006, 0x2007, 0x2008, 0x2009, 0x200A,
                           0x2028, 0x2029, 0x202F, 0x205F, 0x3000}
  {}

  /** Only white space is cut off, at the two ends. */
  lemma {:induction false} StripCutsSpace(s: string) returns (a: string, b: string)
    ensures s == a + Strip(s) + b
    ensures forall c | c in a || c in b :: IsSpace(c)
  {
    hide IsSpace;
    if s != [] && IsSpace(s[0]) {
      a, b := StripCutsSpace(s[1..]);
      assert s == [s[0]] + (a + Strip(s) + b) == [s[0]] + a + Strip(s) + b;
      a := [s[0]] + a;
    } else if s != [] && IsSpace(s[|s| - 1]) {
      a, b := StripCutsSpace(s[..|s| - 1]);
      assert s == (a + Strip(s) + b) + [s[|s| - 1]] == a + Strip(s) + (b + [s[|s| - 1]]);
      b := b + [s[|s| - 1]];
    } else {
      a, b := [], [];
      assert [] + Strip(s) + [] == Strip(s) == s;
    }
  }

  /**
   The presented factor is good for the user at this time: a code that the secret shows within
   the window, its first such counter newer than the last accepted one; or an own unused code.
   */
  ghost predicate Fits(s: Settings, t: Tables, user: UserId, factor: Factor, now: Moment, used: Consumed)
    requires user in t.methods
  {
    match factor
    case Totp(code) =>
      && used.Counter? && used.secret == t.methods[user].secret
      && SixDigits(Strip(code)) && FirstMatch(s, used.secret, Strip(code), now, used.counter)
      && (t.methods[user].lastCounter.Some? ==> t.methods[user].lastCounter.value < used.counter)
    case Recovery(h) => used == Code(h) && h in t.codes && t.codes[h].userId == user && t.codes[h].usedAt.None?
  }

  lemma AcceptedExactly(s: Settings, t: Tables, user: UserId, factor: Factor, now: Moment)
    requires user in t.methods
    ensures forall used :: Accepted(s, t, user, factor, now) == Some(used) <==> Fits(s, t, user, factor, now, used)
  {
    hide MatchingCounter, Strip;
  }

  /** The method remembers the counter, if it was one, and the time; the rest of it stays. */
  ghost predicate MethodSpent(a: Method, b: Method, used: Consumed, now: Moment) {
    && b.secret == a.secret && b.enabled == a.enabled && b.setupExpiresAt == a.setupExpiresAt
    && b.lastCounter == (if used.Counter? then Some(used.counter) else a.lastCounter)
    && b.lastUsedAt == Some(now)
  }

  /** The user's method is spent and, if a recovery code was presented, that one code; nothing else changes. */
  ghost predicate Spends(t: Tables, u: Tables, user: UserId, used: Consumed, now: Moment)
    requires user in t.methods
  {
    && u.methods.Keys == t.methods.Keys && MethodSpent(t.methods[user], u.methods[user], used, now)
    && (forall v | v in t.methods && v != user :: u.methods[v] == t.methods[v])
    && u.codes.Keys == t.codes.Keys
    && (forall h | h in t.codes ::
          u.codes[h] == if used == Code(h) then RecoveryCode(t.codes[h].userId, Some(now)) else t.codes[h])
  }

  // ----- Login challenges -----

  /** The user's open challenges are closed, the new one is the only open one, all others stay. */
  lemma CreateExactly(s: Settings, t: Tables, user: UserId, ch: nat, now: Moment)
    requires ch !in t.challenges
    ensures var u := CreateChallenge(s, t, user, ch, now);
            && u == t.(challenges := u.challenges) && u.challenges.Keys == t.challenges.Keys + {ch}
            && u.challenges[ch] == Challenge(user, now + s.challengeSeconds, None, None, 0)
            && (forall k | k in t.challenges ::
                  var c := t.challenges[k];
                  if c.userId == user && c.usedAt.None? && c.invalidatedAt.None?
                  then u.challenges[k] == t.challenges[k].(invalidatedAt := Some(now))
                  else u.challenges[k] == t.challenges[k])
  {}

  /** A code may be tried: the challenge is open, unexpired and below its limit, the user active and enabled. */
  ghost predicate MayTry(s: Settings, t: Tables, ch: nat, now: Moment) {
    && ch in t.challenges
    && var c := t.challenges[ch];
       && c.usedAt.None? && c.invalidatedAt.None? && c.expiresAt > now && c.attempts < s.maxAttempts
       && c.userId in t.methods && t.methods[c.userId].enabled && c.userId in t.active
  }

  /**
   A code completes a challenge if and only if one may be tried and it fits; then the factor is
   spent, the challenge is used, and nothing else changes.
   */
  lemma LoginExactly(s: Settings, t: Tables, ch: nat, factor: Factor, now: Moment)
    ensures var (u, r) := VerifyLogin(s, t, ch, factor, now);
            && (r.Ok? <==>
                  MayTry(s, t, ch, now) && exists used :: Fits(s, t, t.challenges[ch].userId, factor, now, used))
            && (r.Ok? ==>
                  && Fits(s, t, t.challenges[ch].userId, factor, now, r.value)
                  && Spends(t, u, t.challenges[ch].userId, r.value, now)
                  && u.challenges == t.challenges[ch := t.challenges[ch].(usedAt := Some(now))]
                  && u.ceremonies == t.ceremonies && u.active == t.active)
  {
    hide MatchingCounter, Strip, Accepted, Fits;
    if MayTry(s, t, ch, now) { AcceptedExactly(s, t, t.challenges[ch].userId, factor, now); }
    if VerifyLogin(s, t, ch, factor, now).1.Ok? {
      FitsOwn(s, t, t.challenges[ch].userId, factor, now, VerifyLogin(s, t, ch, factor, now).1.value);
    }
  }

  lemma FitsOwn(s: Settings, t: Tables, user: UserId, factor: Factor, now: Moment, used: Consumed)
    requires user in t.methods && Fits(s, t, user, factor, now, used)
    ensures used.Code? ==> used.hash in t.codes && t.codes[used.hash].userId == user
  {}

  /** Only the one challenge changes, and only by being closed now. */
  ghost predicate OnlyCloses(t: Tables, u: Tables, ch: nat, now: Moment)
    requires ch in t.challenges
  {
    u == t.(challenges := t.challenges[ch := t.challenges[ch].(invalidatedAt := Some(now))])
  }

  /** Every refusal of a code, with what it leaves behind. */
  lemma LoginRefusals(s: Settings, t: Tables, ch: nat, factor: Factor, now: Moment)
    ensures var (u, r) := VerifyLogin(s, t, ch, factor, now);
            if ch !in t.challenges then u == t && r == Err(ChallengeInvalid)
            else
              var c := t.challenges[ch];
              && (c.usedAt.Some? ==> u == t && r == Err(ChallengeUsed))
              && (c.usedAt.None? && c.invalidatedAt.Some? ==> u == t && r == Err(ChallengeInvalid))
              && (c.usedAt.None? && c.invalidatedAt.None? ==>
                    && (c.expiresAt <= now ==> OnlyCloses(t, u, ch, now) && r == Err(ChallengeExpired))
                    && (c.expiresAt > now && c.attempts >= s.maxAttempts ==>
                          OnlyCloses(t, u, ch, now) && r == Err(TooManyAttempts))
                    && (c.expiresAt > now && c.attempts < s.maxAttempts && !MayTry(s, t, ch, now) ==>
                          OnlyCloses(t, u, ch, now) && r == Err(ChallengeInvalid)))
  {
    hide MatchingCounter, Strip;
  }

  /**
   A code that may be tried and does not fit counts: the challenge alone changes, by one more
   attempt, and it is closed if and only if that reaches the limit.
   */
  lemma WrongCodeCounts(s: Settings, t: Tables, ch: nat, factor: Factor, now: Moment)
    requires MayTry(s, t, ch, now)
    requires forall used :: !Fits(s, t, t.challenges[ch].userId, factor, now, used)
    ensures var (u, r) := VerifyLogin(s, t, ch, factor, now);
            var c, last := t.challenges[ch], t.challenges[ch].attempts + 1 == s.maxAttempts;
            && u == t.(challenges := t.challenges[ch :=
                         Challenge(c.userId, c.expiresAt, None, if last then Some(now) else None, c.attempts + 1)])
            && r == Err(if last then TooManyAttempts else FactorInvalid)
  {
    hide MatchingCounter, Strip, Accepted, Fits;
    AcceptedExactly(s, t, t.challenges[ch].userId, factor, now);
  }

  // ----- The passkey path -----

  /** A ceremony is opened if and only if its challenge is open and unexpired; it is bound to both. */
  lemma OptionsExactly(s: Settings, t: Tables, ch: nat, ceremony: nat, now: Moment)
    ensures var (u, ok) := OpenCeremony(s, t, ch, ceremony, now);
            && (ok <==>
                  && ch in t.challenges && t.challenges[ch].usedAt.None? && t.challenges[ch].invalidatedAt.None?
                  && t.challenges[ch].expiresAt > now)
            && u == t.(ceremonies := u.ceremonies)
            && u.ceremonies ==
               if ok then
                 t.ceremonies[ceremony :=
                                Ceremony(t.challenges[ch].userId, ch, now + s.ceremonySeconds, None, None, 0)]
               else t.ceremonies
  {}

  /**
   A passkey completes a challenge if and only if its ceremony was opened for it, is open and
   unexpired, and the key matches; then both are used and nothing else changes.
   */
  lemma PasskeyExactly(t: Tables, ch: nat, ceremony: nat, answer: Passkey, now: Moment)
    ensures var (u, r) := VerifyPasskey(t, ch, ceremony, answer, now);
            && (r.Ok? <==>
                  && ch in t.challenges && Usable(t.challenges[ch], now) && ceremony in t.ceremonies
                  && var e := t.ceremonies[ceremony];
                     && e.usedAt.None? && e.invalidatedAt.None? && e.expiresAt > now
                     && e.challenge == ch && e.userId == t.challenges[ch].userId
                     && e.userId in t.active && answer.Matching?)
            && (r.Ok? ==>
                  && r.value == t.challenges[ch].userId
                  && u == t.(challenges := t.challenges[ch := t.challenges[ch].(usedAt := Some(now))],
                             ceremonies := t.ceremonies[ceremony := t.ceremonies[ceremony].(usedAt := Some(now))]))
  {}

  /** Every refusal of a passkey: the challenge stays as it is, and the ceremony counts or closes. */
  lemma PasskeyRefusals(t: Tables, ch: nat, ceremony: nat, answer: Passkey, now: Moment)
    ensures var (u, r) := VerifyPasskey(t, ch, ceremony, answer, now);
            if !(ch in t.challenges && t.challenges[ch].usedAt.None? && t.challenges[ch].invalidatedAt.None?
                 && t.challenges[ch].expiresAt > now) then u == t && r == Err(ChallengeInvalid)
            else if !(ceremony in t.ceremonies && t.ceremonies[ceremony].usedAt.None?
                      && t.ceremonies[ceremony].invalidatedAt.None?) then u == t && r == Err(CeremonyInvalid)
            else
              var e := t.ceremonies[ceremony];
              var bound := e.challenge == ch && e.userId == t.challenges[ch].userId;
              && (e.expiresAt <= now ==>
                    && u == t.(ceremonies := t.ceremonies[ceremony := e.(invalidatedAt := Some(now))])
                    && r == Err(CeremonyInvalid))
              && (e.expiresAt > now && !bound ==> u == t && r == Err(CeremonyInvalid))
              && (e.expiresAt > now && bound && !(e.userId in t.active && answer.Matching?) ==>
                    && r == Err(PasskeyInvalid)
                    && u == if answer.UnknownCredential? || (answer.BadSignature? && e.userId in t.active)
                            then t.(ceremonies := t.ceremonies[ceremony := e.(attempts := e.attempts + 1)]) else t)
  {}

  // ----- Setup and sensitive actions -----

  /** A new secret takes the place of one that is not enabled; nothing is accepted for it yet. */
  lemma SetupExactly(s: Settings, t: Tables, user: UserId, secret: nat, now: Moment)
    ensures var (u, r) := StartSetup(s, t, user, secret, now);
            if user in t.methods && t.methods[user].enabled then u == t && r == Err(AlreadyEnabled)
            else
              && r == Ok(secret) && u == t.(methods := u.methods)
              && u.methods.Keys == t.methods.Keys + {user}
              && (forall v | v in t.methods && v != user :: u.methods[v] == t.methods[v])
              && var m := u.methods[user];
                 && m.secret == secret && !m.enabled && m.setupExpiresAt == Some(now + s.setupSeconds)
                 && m.lastCounter.None?
                 && m.lastUsedAt == if user in t.methods then t.methods[user].lastUsedAt else None
  {}

  /** The user has exactly these codes, all unused; the codes of other users stay. */
  ghost predicate HasExactly(t: Tables, u: Tables, user: UserId, hashes: set<string>) {
    && (forall h | h in hashes :: h in u.codes && u.codes[h].userId == user && u.codes[h].usedAt.None?)
    && (forall h | h in u.codes && u.codes[h].userId == user :: h in hashes)
    && (forall h | h in t.codes && t.codes[h].userId != user && h !in hashes ::
          h in u.codes && u.codes[h] == t.codes[h])
    && (forall h | h in u.codes && u.codes[h].userId != user :: h in t.codes && u.codes[h] == t.codes[h])
  }

  /**
   A setup is confirmed if and only if it is pending, unexpired and the code is one that its
   secret shows in the window; then the method is enabled with the first such counter and the
   user has exactly the new codes. Challenges, and what others have, stay.
   */
  lemma ConfirmExactly(s: Settings, t: Tables, user: UserId, code: string, hashes: set<string>, now: Moment)
    ensures var (u, r) := ConfirmSetup(s, t, user, code, hashes, now);
            var pending := user in t.methods && !t.methods[user].enabled && t.methods[user].setupExpiresAt.Some?
                           && t.methods[user].setupExpiresAt.value > now;
            && (!pending ==> u == t && r == Err(SetupExpired))
            && (r.Err? && pending ==> u == t && r == Err(FactorInvalid))
            && (r.Ok? <==> pending && SixDigits(code)
                           && exists c :: FirstMatch(s, t.methods[user].secret, code, now, c))
            && (r.Ok? ==>
                  && r.value.Counter? && r.value.secret == t.methods[user].secret
                  && FirstMatch(s, r.value.secret, code, now, r.value.counter)
                  && u.methods ==
                     t.methods[user := Method(r.value.secret, true, None, Some(r.value.counter), Some(now))]
                  && HasExactly(t, u, user, hashes)
                  && u.challenges == t.challenges && u.ceremonies == t.ceremonies && u.active == t.active)
  {
    hide Strip;
  }

  /** What a sensitive action asks for, and its refusals. */
  lemma SensitiveExactly(s: Settings, t: Tables, user: UserId, passwordOk: bool, factor: Factor, now: Moment)
    ensures var r := VerifySensitive(s, t, user, passwordOk, factor, now);
            var enabled := user in t.methods && t.methods[user].enabled;
            && (!enabled ==> r == Err(NotEnabled))
            && (enabled && !passwordOk ==> r == Err(PasswordInvalid))
            && (enabled && passwordOk && r.Err? ==> r == Err(FactorInvalid))
            && (r.Ok? <==> enabled && passwordOk && exists used :: Fits(s, t, user, factor, now, used))
            && (r.Ok? ==> Fits(s, t, user, factor, now, r.value))
  {
    hide MatchingCounter, Strip, Accepted, Fits;
    if user in t.methods { AcceptedExactly(s, t, user, factor, now); }
  }

  lemma ReplacedHasExactly(t: Tables, user: UserId, used: Consumed, hashes: set<string>, now: Moment)
    requires user in t.methods && (used.Code? ==> used.hash in t.codes && t.codes[used.hash].userId == user)
    ensures HasExactly(t, ReplaceCodes(Consume(t, user, used, now), user, hashes), user, hashes)
  {}

  /**
   Recovery codes are regenerated if and only if the password and a factor hold; then the user
   has exactly the new codes and the factor is spent. A refusal leaves the tables alone.
   */
  lemma RegenerateExactly(s: Settings, t: Tables, user: UserId, passwordOk: bool, factor: Factor, hashes: set<string>,
      now: Moment)
    ensures var (u, r) := Regenerate(s, t, user, passwordOk, factor, hashes, now);
            && r == VerifySensitive(s, t, user, passwordOk, factor, now)
            && (r.Err? ==> u == t)
            && (r.Ok? ==>
                  && HasExactly(t, u, user, hashes)
                  && u.methods.Keys == t.methods.Keys && MethodSpent(t.methods[user], u.methods[user], r.value, now)
                  && (forall v | v in t.methods && v != user :: u.methods[v] == t.methods[v])
                  && u.challenges == t.challenges && u.ceremonies == t.ceremonies && u.active == t.active)
  {
    hide MatchingCounter, Strip, Accepted, Fits, HasExactly;
    SensitiveExactly(s, t, user, passwordOk, factor, now);
    var r := VerifySensitive(s, t, user, passwordOk, factor, now);
    if r.Ok? {
      FitsOwn(s, t, user, factor, now, r.value);
      ReplacedHasExactly(t, user, r.value, hashes, now);
    }
  }

  /**
   MFA is turned off if and only if the password and a factor hold; then the user has no method
   and no code, and every challenge of the user that was not used is closed now. What others
   have stays, and a refusal leaves the tables alone.
   */
  lemma DisableExactly(s: Settings, t: Tables, user: UserId, passwordOk: bool, factor: Factor, now: Moment)
    ensures var (u, r) := Disable(s, t, user, passwordOk, factor, now);
            && r == VerifySensitive(s, t, user, passwordOk, factor, now)
            && (r.Err? ==> u == t)
            && (r.Ok? ==>
                  && u.methods == t.methods - {user}
                  && HasExactly(t, u, user, {})
                  && u.challenges.Keys == t.challenges.Keys
                  && (forall k | k in t.challenges ::
                        if t.challenges[k].userId == user && t.challenges[k].usedAt.None?
                        then u.challenges[k] == t.challenges[k].(invalidatedAt := Some(now))
                        else u.challenges[k] == t.challenges[k])
                  && u.ceremonies == t.ceremonies && u.active == t.active)
  {
    hide MatchingCounter, Strip, Accepted, Fits;
    SensitiveExactly(s, t, user, passwordOk, factor, now);
    var r := VerifySensitive(s, t, user, passwordOk, factor, now);
    if r.Ok? { FitsOwn(s, t, user, factor, now, r.value); }
  }
}

/** The authenticator as the object the node shares, and a login from credentials text to answer. */
module Authenticator {
  import opened Sequences
  import opened Text
  import opened Base64
  import opened HashText
  import opened Lockout

  function Verifier(kdf: Kdf): Verify {
    (password: string, hash: string) => VerifyPassword(password, hash, kdf)
  }

  /** user:password, split at the first colon. */
  function ParseCredentials(cred: string): (string, string) {
    var i := Position(cred, ':');
    if i == |cred| then ("", "") else (cred[..i], cred[i + 1..])
  }

  class Authenticator {
    const kdf: Kdf
    var users: map<string, Profile>
    var failedAttempts: map<string, Attempt>

    function View(): State
      reads this
    {
      State(users, failedAttempts)
    }

    constructor (users: map<string, Profile>, kdf: Kdf)
      ensures View() == State(users, map[]) && this.kdf == kdf
    {
      this.kdf := kdf;
      this.users := users;
      failedAttempts := map[];
    }

    method Check(username: string, password: string, now: nat, later: nat) returns (ok: bool)
      modifies this
      ensures (View(), ok) == Lockout.Check(old(View()), username, password, Verifier(kdf), now, later)
    {
      if username in failedAttempts {
        var attempt := failedAttempts[username];
        if now < attempt.lockUntil {
          return false;
        }
        if attempt.count >= MAX_LOGIN_ATTEMPTS {
          failedAttempts := failedAttempts[username := attempt.(count := 0)];
        }
      }
      if username !in users {
        RecordFailedAttempt(username, later);
        return false;
      }
      var profile := users[username];
      if profile.status == "banned" {
        return false;
      }
      var verdict := VerifyPassword(password, profile.passwordHash, kdf);
      if verdict.None? {
        return false;
      }
      ok := verdict.value;
      if ok {
        failedAttempts := failedAttempts - {username};
        users := users[username := profile.(lastSeen := later, status := "online")];
      } else {
        RecordFailedAttempt(username, later);
      }
    }

    method RecordFailedAttempt(username: string, now: nat)
      modifies this`failedAttempts
      ensures failedAttempts == RecordFailure(old(failedAttempts), username, now)
    {
      if username !in failedAttempts {
        failedAttempts := failedAttempts[username := Attempt(0, 0)];
      }
      var attempt := failedAttempts[username];
      attempt := attempt.(count := attempt.count + 1);
      if attempt.count >= MAX_LOGIN_ATTEMPTS {
        attempt := attempt.(lockUntil := now + LOCKOUT_DURATION);
      }
      failedAttempts := failedAttempts[username := attempt];
    }

    method Register(username: string, password: string, salt: seq<Byte>, now: nat) returns (ok: bool)
      modifies this
      ensures (View(), ok) == Lockout.Register(old(View()), username, password, HashPassword(password, salt, kdf), now)
    {
      if !ValidUsername(username) {
        return false;
      }
      if |password| < 4 {
        return false;
      }
      if username in users {
        return false;
      }
      var hash := HashPassword(password, salt, kdf);
      var role := "member";
      if |users| == 0 {
        role := "admin";
      }
      users := users[username := Profile(hash, role, username, "offline", now)];
      ok := true;
    }
  }

  /** The first colon ends the user name: the text reads back as it was joined exactly when the name has none. */
  lemma CredentialsRoundTripIff(user: string, password: string)
    ensures ParseCredentials(user + [':'] + password) == (user, password) <==> ':' !in user
    ensures ':' !in password ==> ParseCredentials(password) == ("", "")
  {
    assert ':' !in password ==> Position(password, ':') == |password|;
    var cred := user + [':'] + password;
    assert cred[|user|] == ':';
    if ':' !in user {
      PositionAfter(user, ':', password);
      assert cred[..|user|] == user && cred[|user| + 1..] == password;
    } else {
      var j :| 0 <= j < |user| && user[j] == ':';
      assert cred[j] == ':';
      assert Position(cred, ':') <= j;
    }
  }

  /**
   * A name that has just been registered logs in with the text of its own credentials exactly unless failed
   * logins, recorded for the name even before it existed, have it locked at that moment.
   */
  lemma RegisteredLogsInUnlessLocked(st: State, user: string, password: string, salt: seq<Byte>, kdf: Kdf,
      registered: nat, now: nat, later: nat)
    requires KeyLength(kdf) && Register(st, user, password, HashPassword(password, salt, kdf), registered).1
    ensures var st' := Register(st, user, password, HashPassword(password, salt, kdf), registered).0;
            var (name, secret) := ParseCredentials(user + [':'] + password);
            Check(st', name, secret, Verifier(kdf), now, later).1 <==> !Locked(st, user, now)
  {
    CredentialsRoundTripIff(user, password);
    HashRoundTrip(password, password, salt, kdf);
  }
}

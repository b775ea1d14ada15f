/** Login attempts and the lockout that follows five failures. */
module Lockout {
  import opened Options

  const MAX_LOGIN_ATTEMPTS := 5
  /** Fifteen minutes, in nanoseconds. */
  const LOCKOUT_DURATION := 15 * 60 * 1_000_000_000

  /** Times count from the zero time, which an attempt that never locked holds. */
  datatype Attempt = Attempt(count: nat, lockUntil: nat)

  datatype Profile = Profile(passwordHash: string, role: string, displayName: string, status: string, lastSeen: nat)

  datatype State = State(users: map<string, Profile>, failed: map<string, Attempt>)

  /** Whether a password matches a stored hash; None when the hash is unusable. */
  type Verify = (string, string) -> Option<bool>

  function RecordFailure(failed: map<string, Attempt>, user: string, now: nat): map<string, Attempt> {
    var a := if user in failed then failed[user] else Attempt(0, 0);
    var n := a.count + 1;
    failed[user := Attempt(n, if n >= MAX_LOGIN_ATTEMPTS then now + LOCKOUT_DURATION else a.lockUntil)]
  }

  predicate Locked(st: State, user: string, now: nat) {
    user in st.failed && now < st.failed[user].lockUntil
  }

  /** An expired lock starts the count again. */
  function Unlock(failed: map<string, Attempt>, user: string): map<string, Attempt> {
    if user in failed && failed[user].count >= MAX_LOGIN_ATTEMPTS then failed[user := failed[user].(count := 0)]
        else failed
  }

  /** The clock is read on entry and, after the password was checked, again. */
  function Check(st: State, user: string, password: string, verify: Verify, now: nat, later: nat): (State, bool) {
    if Locked(st, user, now) then (st, false)
    else
      var failed := Unlock(st.failed, user);
      if user !in st.users then (st.(failed := RecordFailure(failed, user, later)), false)
      else
        var profile := st.users[user];
        if profile.status == "banned" then (st.(failed := failed), false)
        else
          match verify(password, profile.passwordHash)
          case None => (st.(failed := failed), false)
          case Some(matches) =>
            if matches then
              (State(st.users[user := profile.(status := "online", lastSeen := later)], failed - {user}), true)
            else (st.(failed := RecordFailure(failed, user, later)), false)
  }

  /** Letters, digits, underscore and dash; two to thirty-two of them. */
  predicate ValidUsername(name: string) {
    2 <= |name| <= 32 &&
    forall c | c in name :: 'a' <= c <= 'z' || 'A' <= c <= 'Z' || '0' <= c <= '9' || c == '_' || c == '-'
  }

  function Register(st: State, user: string, password: string, hash: string, now: nat): (State, bool) {
    if !ValidUsername(user) || |password| < 4 || user in st.users then (st, false)
    else
      var role := if |st.users| == 0 then "admin" else "member";
      (st.(users := st.users[user := Profile(hash, role, user, "offline", now)]), true)
  }

  function SetStatus(st: State, user: string, status: string, now: nat): State {
    if user in st.users then st.(users := st.users[user := st.users[user].(status := status, lastSeen := now)]) else st
  }

  // ---- Runs ----

  datatype Op =
    | CheckOp(user: string, password: string, now: nat, later: nat)
    | RegisterOp(user: string, password: string, hash: string, now: nat)
    | StatusOp(user: string, status: string, now: nat)

  function End(op: Op): nat {
    if op.CheckOp? then op.later else op.now
  }

  function Step(st: State, op: Op, verify: Verify): State {
    match op
    case CheckOp(user, password, now, later) => Check(st, user, password, verify, now, later).0
    case RegisterOp(user, password, hash, now) => Register(st, user, password, hash, now).0
    case StatusOp(user, status, now) => SetStatus(st, user, status, now)
  }

  function After(users: map<string, Profile>, ops: seq<Op>, verify: Verify): State {
    if |ops| == 0 then State(users, map[])
    else Step(After(users, ops[..|ops| - 1], verify), ops[|ops| - 1], verify)
  }

  /** The operations take the lock one after another, so their times do not overlap. */
  predicate Timed(ops: seq<Op>) {
    (forall op | op in ops :: op.now <= End(op)) &&
    forall i, j | 0 <= i < j < |ops| :: End(ops[i]) <= ops[j].now
  }

  predicate Succeeds(st: State, op: Op, user: string, verify: Verify) {
    op.CheckOp? && op.user == user && Check(st, user, op.password, verify, op.now, op.later).1
  }

  /** The check counts as a failed login: the name is unknown, or the password is wrong. */
  predicate Fails(st: State, op: Op, user: string, verify: Verify) {
    op.CheckOp? && op.user == user && !Locked(st, user, op.now) &&
    (user !in st.users ||
     (st.users[user].status != "banned" && verify(op.password, st.users[user].passwordHash) == Some(false)))
  }

  /** When user's failures since the last successful login were recorded. */
  function Failures(users: map<string, Profile>, ops: seq<Op>, user: string, verify: Verify): seq<nat> {
    if |ops| == 0 then []
    else
      var rest, op := ops[..|ops| - 1], ops[|ops| - 1];
      Failed(Failures(users, rest, user, verify), After(users, rest, verify), op, user, verify)
  }

  function Failed(times: seq<nat>, st: State, op: Op, user: string, verify: Verify): seq<nat> {
    if Succeeds(st, op, user, verify) then []
    else if Fails(st, op, user, verify) then times + [op.later]
    else times
  }

  /** Any six failures in a row span at least the lockout. */
  predicate Spread(times: seq<nat>) {
    (forall i, j | 0 <= i < j < |times| :: times[i] <= times[j]) &&
    forall i | 0 <= i && i + MAX_LOGIN_ATTEMPTS < |times| ::
        times[i] + LOCKOUT_DURATION <= times[i + MAX_LOGIN_ATTEMPTS]
  }

  /**
   * How the counter stands to the failures. Every fifth failure sets the lock. Below the limit, the counter counts
   * the failures since the last lock, and that lock has run out; at the limit, the last failure set the lock.
   */
  predicate Counts(failed: map<string, Attempt>, user: string, times: seq<nat>, now: nat) {
    var n := |times|;
    if user !in failed then n == 0
    else
      var a := failed[user];
      && a.count <= MAX_LOGIN_ATTEMPTS && a.count <= n
      && (n - a.count) % MAX_LOGIN_ATTEMPTS == 0
      && (a.count == MAX_LOGIN_ATTEMPTS ==> a.lockUntil == times[n - 1] + LOCKOUT_DURATION)
      && (a.count < MAX_LOGIN_ATTEMPTS && n == a.count ==> a.lockUntil == 0)
      && (a.count < MAX_LOGIN_ATTEMPTS && n > a.count ==>
            a.lockUntil == times[n - a.count - 1] + LOCKOUT_DURATION && a.lockUntil <= now)
  }

  predicate AllUpTo(times: seq<nat>, now: nat) {
    forall t | t in times :: t <= now
  }

  /** One more failure keeps the spread: five failures back lies at or before the last lock, which has run out. */
  lemma FailureSpreads(failed: map<string, Attempt>, user: string, times: seq<nat>, now: nat, later: nat)
    requires Spread(times) && Counts(failed, user, times, now) && AllUpTo(times, now) && now <= later
    requires user in failed ==> failed[user].count < MAX_LOGIN_ATTEMPTS
    ensures Spread(times + [later]) && AllUpTo(times + [later], later)
    ensures Counts(RecordFailure(failed, user, later), user, times + [later], later)
  {
    var n := |times|;
    if n >= MAX_LOGIN_ATTEMPTS {
      var lock := n - failed[user].count - 1;
      assert times[n - MAX_LOGIN_ATTEMPTS] <= times[lock];
    }
    SpreadExtends(times, now, later);
  }

  lemma SpreadExtends(times: seq<nat>, now: nat, later: nat)
    requires Spread(times) && AllUpTo(times, now) && now <= later
    requires |times| >= MAX_LOGIN_ATTEMPTS ==> times[|times| - MAX_LOGIN_ATTEMPTS] + LOCKOUT_DURATION <= later
    ensures Spread(times + [later]) && AllUpTo(times + [later], later)
  {
    forall i | 0 <= i < |times| ensures times[i] <= later {
      assert times[i] in times;
    }
  }

  lemma UnlockCounts(failed: map<string, Attempt>, user: string, times: seq<nat>, now: nat)
    requires Counts(failed, user, times, now) && (user in failed ==> failed[user].lockUntil <= now)
    ensures Counts(Unlock(failed, user), user, times, now)
    ensures user in Unlock(failed, user) ==> Unlock(failed, user)[user].count < MAX_LOGIN_ATTEMPTS
  {
  }

  lemma CountsLater(failed: map<string, Attempt>, user: string, times: seq<nat>, now: nat, later: nat)
    requires Counts(failed, user, times, now) && now <= later
    ensures Counts(failed, user, times, later)
  {
  }

  /** What a check does to user's own counter. */
  lemma CheckEffect(st: State, op: Op, user: string, verify: Verify)
    requires op.CheckOp?
    ensures var failed := Step(st, op, verify).failed;
            if op.user != user || Locked(st, user, op.now) then
              !Succeeds(st, op, user, verify) && !Fails(st, op, user, verify) &&
              (user in failed <==> user in st.failed) && (user in failed ==> failed[user] == st.failed[user])
            else if Succeeds(st, op, user, verify) then user !in failed && !Fails(st, op, user, verify)
            else failed == if Fails(st, op, user, verify) then RecordFailure(Unlock(st.failed, user), user, op.later)
                else Unlock(st.failed, user)
  {
  }

  lemma CheckKeeps(st: State, op: Op, user: string, times: seq<nat>, verify: Verify)
    requires op.CheckOp? && op.now <= op.later
    requires Spread(times) && AllUpTo(times, op.now) && Counts(st.failed, user, times, op.now)
    ensures var times' := Failed(times, st, op, user, verify);
            Spread(times') && AllUpTo(times', op.later) && Counts(Step(st, op, verify).failed, user, times', op.later)
  {
    CheckEffect(st, op, user, verify);
    if op.user != user || Locked(st, user, op.now) {
      CountsLater(st.failed, user, times, op.now, op.later);
    } else if !Succeeds(st, op, user, verify) {
      var failed := Unlock(st.failed, user);
      UnlockCounts(st.failed, user, times, op.now);
      if Fails(st, op, user, verify) {
        FailureSpreads(failed, user, times, op.now, op.later);
      } else {
        CountsLater(failed, user, times, op.now, op.later);
      }
    }
  }

  lemma EarlierOps(ops: seq<Op>)
    requires Timed(ops) && |ops| > 0
    ensures var rest, op := ops[..|ops| - 1], ops[|ops| - 1];
            Timed(rest) && op in ops && op.now <= End(op) && forall x | x in rest :: End(x) <= op.now
  {
  }

  predicate Tally(st: State, user: string, times: seq<nat>, now: nat) {
    Spread(times) && AllUpTo(times, now) && Counts(st.failed, user, times, now)
  }

  lemma StepKeeps(st: State, op: Op, user: string, times: seq<nat>, verify: Verify, now: nat)
    requires op.now <= End(op) <= now && Tally(st, user, times, op.now)
    ensures Tally(Step(st, op, verify), user, Failed(times, st, op, user, verify), now)
  {
    if op.CheckOp? {
      CheckKeeps(st, op, user, times, verify);
      CountsLater(Step(st, op, verify).failed, user, Failed(times, st, op, user, verify), op.later, now);
    } else {
      CountsLater(st.failed, user, times, op.now, now);
    }
  }

  lemma {:induction false} RunKeeps(users: map<string, Profile>, ops: seq<Op>, user: string, verify: Verify, now: nat)
    requires Timed(ops) && forall op | op in ops :: End(op) <= now
    ensures Tally(After(users, ops, verify), user, Failures(users, ops, user, verify), now)
  {
    if |ops| > 0 {
      var rest, op := ops[..|ops| - 1], ops[|ops| - 1];
      EarlierOps(ops);
      RunKeeps(users, rest, user, verify, op.now);
      StepKeeps(After(users, rest, verify), op, user, Failures(users, rest, user, verify), verify, now);
    }
  }

  // ---- What the lockout promises ----

  function InWindow(times: seq<nat>, from: nat): nat {
    if |times| == 0 then 0
    else
      var t := times[|times| - 1];
      InWindow(times[..|times| - 1], from) + if from <= t < from + LOCKOUT_DURATION then 1 else 0
  }

  /** As long as the last failure lies before the window's end, those in the window are the last ones. */
  lemma {:induction false} WindowIsTail(times: seq<nat>, from: nat)
    requires Spread(times) && (|times| > 0 ==> times[|times| - 1] < from + LOCKOUT_DURATION)
    ensures var k := InWindow(times, from); k <= |times| && (k > 0 ==> times[|times| - k] >= from)
  {
    if |times| > 0 {
      var rest := times[..|times| - 1];
      assert |rest| > 0 ==> times[|rest| - 1] <= times[|times| - 1];
      WindowIsTail(rest, from);
      var k := InWindow(rest, from);
      assert k > 0 ==> rest[|rest| - k] == times[|rest| - k] <= times[|times| - 1];
    }
  }

  lemma {:induction false} SpreadWindow(times: seq<nat>, from: nat)
    requires Spread(times)
    ensures InWindow(times, from) <= MAX_LOGIN_ATTEMPTS
  {
    if |times| > 0 {
      var n := |times|;
      if times[n - 1] >= from + LOCKOUT_DURATION {
        SpreadWindow(times[..n - 1], from);
      } else {
        WindowIsTail(times, from);
        var k := InWindow(times, from);
        var first := n - 1 - MAX_LOGIN_ATTEMPTS;
        assert first >= 0 ==> times[first] + LOCKOUT_DURATION <= times[first + MAX_LOGIN_ATTEMPTS];
      }
    }
  }

  /** Between two successful logins, any half-open fifteen minutes hold at most five recorded failures. */
  lemma LockoutBound(users: map<string, Profile>, ops: seq<Op>, user: string, verify: Verify, now: nat, from: nat)
    requires Timed(ops) && forall op | op in ops :: End(op) <= now
    ensures InWindow(Failures(users, ops, user, verify), from) <= MAX_LOGIN_ATTEMPTS
    ensures user in After(users, ops, verify).failed ==>
            After(users, ops, verify).failed[user].count <= MAX_LOGIN_ATTEMPTS
  {
    RunKeeps(users, ops, user, verify, now);
    SpreadWindow(Failures(users, ops, user, verify), from);
  }

  function RunFrom(st: State, ops: seq<Op>, verify: Verify): State
    decreases |ops|
  {
    if |ops| == 0 then st else RunFrom(Step(st, ops[0], verify), ops[1..], verify)
  }

  /** Until the lock runs out nothing lifts it: no check succeeds, whatever the password and whatever else happens. */
  lemma {:induction false} LockHolds(st: State, ops: seq<Op>, user: string, verify: Verify, until: nat)
    requires user in st.failed && st.failed[user].lockUntil >= until
    requires forall op | op in ops :: op.now < until
    ensures user in RunFrom(st, ops, verify).failed && RunFrom(st, ops, verify).failed[user] == st.failed[user]
    ensures forall password: string, now: nat, later: nat :: now < until ==>
              Check(RunFrom(st, ops, verify), user, password, verify, now, later) == (RunFrom(st, ops, verify), false)
    decreases |ops|
  {
    if |ops| > 0 {
      assert ops[0] in ops;
      LockHolds(Step(st, ops[0], verify), ops[1..], user, verify, until);
    }
  }

  /** The last failure was a fifth one. */
  predicate FifthFailure(times: seq<nat>) {
    |times| > 0 && |times| % 5 == 0
  }

  lemma LockedCounts(st: State, user: string, times: seq<nat>, now: nat)
    requires Tally(st, user, times, now)
    ensures Locked(st, user, now) <==> FifthFailure(times) && now < times[|times| - 1] + 900_000_000_000
    ensures FifthFailure(times) ==>
              user in st.failed && st.failed[user].lockUntil == times[|times| - 1] + 900_000_000_000
  {
  }

  /**
   * In every reachable state a name is locked exactly if the number of its failures since the last successful login
   * is a multiple of five, however far apart they lie, and the lockout has not passed since the last of them.
   */
  lemma LockedIff(
    users: map<string, Profile>, ops: seq<Op>, user: string, verify: Verify, now: nat, times: seq<nat>, st: State)
    requires Timed(ops) && forall op | op in ops :: End(op) <= now
    requires times == Failures(users, ops, user, verify) && st == After(users, ops, verify)
    ensures Locked(st, user, now) <==> FifthFailure(times) && now < times[|times| - 1] + 900_000_000_000
  {
    RunKeeps(users, ops, user, verify, now);
    LockedCounts(st, user, times, now);
  }

  /**
   * From the fifth failure on, and from every further fifth one, no check of the name succeeds until the lockout has
   * passed since that failure, even with the right password and whatever else happens meanwhile.
   */
  lemma FiveFailuresShutOut(
    users: map<string, Profile>, ops: seq<Op>, more: seq<Op>, user: string, verify: Verify, now: nat, times: seq<nat>,
        st: State)
    requires Timed(ops) && forall op | op in ops :: End(op) <= now
    requires times == Failures(users, ops, user, verify) && st == After(users, ops, verify) && FifthFailure(times)
    requires forall op | op in more :: op.now < times[|times| - 1] + 900_000_000_000
    ensures forall password: string, t: nat, later: nat :: t < times[|times| - 1] + 900_000_000_000 ==>
              !Check(RunFrom(st, more, verify), user, password, verify, t, later).1
  {
    RunKeeps(users, ops, user, verify, now);
    LockedCounts(st, user, times, now);
    LockHolds(st, more, user, verify, times[|times| - 1] + 900_000_000_000);
  }

  // ---- Who gets in, and what changes ----

  /**
   * A check succeeds exactly if the name is not locked, is registered and not banned, and its hash accepts the
   * password; then the profile is online and seen, and nothing else about any user changes.
   */
  lemma CheckSucceedsIff(st: State, user: string, password: string, verify: Verify, now: nat, later: nat)
    ensures var (st', ok) := Check(st, user, password, verify, now, later);
            && (ok <==>
                  && (user in st.failed ==> st.failed[user].lockUntil <= now)
                  && user in st.users && st.users[user].status != "banned"
                  && verify(password, st.users[user].passwordHash) == Some(true))
            && st'.users.Keys == st.users.Keys
            && (forall u | u in st.users :: st'.users[u] ==
                  if ok && u == user then st.users[u].(status := "online", lastSeen := later) else st.users[u])
  {
  }

  /** A check counts as a failure exactly if the name is not locked, and unknown or known, not banned and refused. */
  lemma FailureCountedIff(st: State, user: string, password: string, verify: Verify, now: nat, later: nat)
    ensures var failed := Check(st, user, password, verify, now, later).0.failed;
            var before := if user in st.failed then st.failed[user] else Attempt(0, 0);
            var counted :=
              before.lockUntil <= now &&
              (user !in st.users ||
               (st.users[user].status != "banned" && verify(password, st.users[user].passwordHash) == Some(false)));
            && (counted ==>
                  user in failed && failed[user].count == (if before.count >= 5 then 0 else before.count) + 1 &&
                  failed[user].lockUntil ==
                    if failed[user].count >= 5 then later + 15 * 60 * 1_000_000_000 else before.lockUntil)
            && (!counted && user in failed ==>
                  failed[user].count <= before.count && failed[user].lockUntil == before.lockUntil)
            && (forall u | u != user :: u in failed <==> u in st.failed)
            && (forall u | u != user && u in st.failed :: failed[u] == st.failed[u])
  {
  }

  /** Setting a status changes exactly that, and when the user was last seen. */
  lemma StatusSet(st: State, user: string, status: string, now: nat)
    ensures var st' := SetStatus(st, user, status, now);
            && st'.failed == st.failed && st'.users.Keys == st.users.Keys
            && (forall u | u in st.users :: st'.users[u] ==
                  if u == user then st.users[u].(status := status, lastSeen := now) else st.users[u])
  {
  }

  predicate Banned(st: State, user: string) {
    user in st.users && st.users[user].status == "banned"
  }

  /** The last status set for the user, if one was. */
  function LastStatus(ops: seq<Op>, user: string): Option<string> {
    if |ops| == 0 then None
    else
      var later := LastStatus(ops[1..], user);
      if later.None? && ops[0].StatusOp? && ops[0].user == user then Some(ops[0].status) else later
  }

  lemma BannedStep(st: State, op: Op, user: string, verify: Verify)
    requires user in st.users
    ensures user in Step(st, op, verify).users
    ensures Banned(Step(st, op, verify), user) <==>
            if op.StatusOp? && op.user == user then op.status == "banned" else Banned(st, user)
  {
    if op.CheckOp? { CheckSucceedsIff(st, op.user, op.password, verify, op.now, op.later); }
  }

  /** Over every run a registered name is banned exactly if its last status set was the ban, or none was and it was. */
  lemma {:induction false} BannedIff(st: State, ops: seq<Op>, user: string, verify: Verify)
    requires user in st.users
    ensures Banned(RunFrom(st, ops, verify), user) <==>
            match LastStatus(ops, user)
            case Some(status) => status == "banned"
            case None => Banned(st, user)
    decreases |ops|
  {
    if |ops| > 0 {
      BannedStep(st, ops[0], user, verify);
      BannedIff(Step(st, ops[0], verify), ops[1..], user, verify);
    }
  }

  /**
   * A banned name stays banned through any operations that do not set its status, and meanwhile no check of it
   * succeeds, even with the right password.
   */
  lemma {:induction false} BannedStaysOut(st: State, ops: seq<Op>, user: string, verify: Verify)
    requires Banned(st, user) && forall op | op in ops :: !(op.StatusOp? && op.user == user)
    ensures Banned(RunFrom(st, ops, verify), user)
    ensures forall password: string, now: nat, later: nat ::
              !Check(RunFrom(st, ops, verify), user, password, verify, now, later).1
    decreases |ops|
  {
    if |ops| > 0 {
      assert ops[0] in ops && forall op | op in ops[1..] :: op in ops;
      BannedStep(st, ops[0], user, verify);
      BannedStaysOut(Step(st, ops[0], verify), ops[1..], user, verify);
    }
  }

  /** So banning a user keeps it out until its status is set again. */
  lemma BanShutsOut(st: State, ops: seq<Op>, user: string, verify: Verify, at: nat)
    requires user in st.users && forall op | op in ops :: !(op.StatusOp? && op.user == user)
    ensures forall password: string, now: nat, later: nat ::
              !Check(RunFrom(SetStatus(st, user, "banned", at), ops, verify), user, password, verify, now, later).1
  {
    BannedStaysOut(SetStatus(st, user, "banned", at), ops, user, verify);
  }

  // ---- Registration ----

  /** A name is taken exactly if it is free, fit to be a name, and its password is long enough. */
  lemma RegisterSucceedsIff(st: State, user: string, password: string, hash: string, now: nat)
    ensures Register(st, user, password, hash, now).1 <==>
              && 2 <= |user| <= 32 && |password| >= 4 && user !in st.users
              && forall c | c in user :: 'a' <= c <= 'z' || 'A' <= c <= 'Z' || '0' <= c <= '9' || c == '_' || c == '-'
  {
  }

  /** Then there is one more profile, of an admin if it is the first; otherwise nothing changes. */
  lemma RegisterAdds(st: State, user: string, password: string, hash: string, now: nat)
    ensures var (st', ok) := Register(st, user, password, hash, now);
            && (!ok ==> st' == st)
            && (ok ==>
                  && user !in st.users && st'.failed == st.failed
                  && st'.users == st.users[user :=
                       Profile(hash, if st.users == map[] then "admin" else "member", user, "offline", now)])
  {
    assert |st.users| == 0 <==> st.users == map[];
  }

  /** The name of the first registration that a new server accepts, if any. */
  function FirstRegistered(ops: seq<Op>): Option<string> {
    if |ops| == 0 then None
    else
      var before, op := FirstRegistered(ops[..|ops| - 1]), ops[|ops| - 1];
      if before.Some? then before
      else if op.RegisterOp? && ValidUsername(op.user) && |op.password| >= 4 then Some(op.user)
      else None
  }

  /** On a server that starts without users, exactly the first to register is the admin. */
  lemma {:induction false} AdminIsFirst(ops: seq<Op>, verify: Verify, user: string)
    ensures var users := After(map[], ops, verify).users;
            && (users == map[] <==> FirstRegistered(ops) == None)
            && (FirstRegistered(ops).Some? ==> FirstRegistered(ops).value in users)
            && (user in users ==> (users[user].role == "admin" <==> FirstRegistered(ops) == Some(user)))
            && (user in users ==> users[user].role == "admin" || users[user].role == "member")
  {
    if |ops| > 0 {
      var rest, op := ops[..|ops| - 1], ops[|ops| - 1];
      AdminIsFirst(rest, verify, user);
      RolesStep(After(map[], rest, verify), op, verify);
    }
  }

  lemma RolesStep(st: State, op: Op, verify: Verify)
    ensures var users := Step(st, op, verify).users;
            if op.RegisterOp? && Register(st, op.user, op.password, op.hash, op.now).1 then
              && op.user !in st.users
              && users == st.users[op.user :=
                   Profile(op.hash, if st.users == map[] then "admin" else "member", op.user, "offline", op.now)]
            else users.Keys == st.users.Keys && forall u | u in users :: users[u].role == st.users[u].role
  {
    if op.RegisterOp? { RegisterAdds(st, op.user, op.password, op.hash, op.now); }
  }
}

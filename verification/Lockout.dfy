/**
 Account lockout: the failure counter and lock of one user, and the login view around the library's
 credential check. The check is a parameter: it answers with a status code or raises.
 */
module Lockout {
  import opened Common

  const MAX_FAILURES := 5
  const LOCK_SECONDS: real := 1800.0
  const HTTP_LOCKED := 423

  datatype Account = Account(failures: nat, lockedUntil: Option<real>)

  const NEW_ACCOUNT := Account(0, None)

  datatype Check = Status(code: nat) | Raises

  /** What the view does with a login attempt. */
  datatype Outcome = Locked | Success | Failure | Propagated

  datatype Attempt = Attempt(now: real, check: Check)

  predicate IsLocked(a: Account, now: real) {
    a.lockedUntil.Some? && a.lockedUntil.value > now
  }

  function AfterFailure(a: Account, now: real): Account {
    var failures := a.failures + 1;
    Account(failures, if failures >= MAX_FAILURES then Some(now + LOCK_SECONDS) else a.lockedUntil)
  }

  function AfterReset(a: Account): Account {
    if a.failures > 0 then NEW_ACCOUNT else a
  }

  /** The view's post, run without another login of the same user in between. */
  function Login(a: Account, t: Attempt): (Account, Outcome) {
    if IsLocked(a, t.now) then (a, Locked)
    else if t.check.Raises? then (a, Propagated)
    else if t.check.code == 200 then (AfterReset(a), Success)
    else (AfterFailure(a, t.now), Failure)
  }

  class User {
    var failedLoginAttempts: nat
    var lockedUntil: Option<real>
    var lastLoginIp: string

    ghost function Abs(): Account
      reads this
    {
      Account(failedLoginAttempts, lockedUntil)
    }

    constructor ()
      ensures Abs() == NEW_ACCOUNT
    {
      failedLoginAttempts, lockedUntil, lastLoginIp := 0, None, "";
    }

    method IsLockedNow(now: real) returns (locked: bool)
      ensures locked == IsLocked(Abs(), now)
    {
      if lockedUntil.Some? && lockedUntil.value > now {
        return true;
      }
      return false;
    }

    method RecordFailedLogin(now: real)
      modifies this`failedLoginAttempts, this`lockedUntil
      ensures Abs() == AfterFailure(old(Abs()), now)
      ensures failedLoginAttempts == old(failedLoginAttempts) + 1
      ensures lockedUntil == if failedLoginAttempts >= 5 then Some(now + 1800.0) else old(lockedUntil)
    {
      failedLoginAttempts := failedLoginAttempts + 1;
      if failedLoginAttempts >= MAX_FAILURES {
        lockedUntil := Some(now + LOCK_SECONDS);
      }
    }

    method ResetFailedLogin()
      modifies this`failedLoginAttempts, this`lockedUntil
      ensures Abs() == AfterReset(old(Abs()))
      ensures failedLoginAttempts == 0
      ensures lockedUntil == if old(failedLoginAttempts) > 0 then None else old(lockedUntil)
    {
      if failedLoginAttempts > 0 {
        failedLoginAttempts := 0;
        lockedUntil := None;
      }
    }
  }

  /** CustomTokenObtainPairView.post for a user that exists; `status` is meaningless when the check raises. */
  method Post(user: User, remoteAddr: string, t: Attempt) returns (outcome: Outcome, status: nat)
    modifies user
    ensures (user.Abs(), outcome) == Login(old(user.Abs()), t)
    ensures outcome == Success ==>
              user.failedLoginAttempts == 0 && (old(user.failedLoginAttempts) > 0 ==> user.lockedUntil.None?)
    ensures outcome == Locked ==> status == HTTP_LOCKED
    ensures t.check.Status? && outcome != Locked ==> status == t.check.code
    ensures user.lastLoginIp == if outcome == Success then remoteAddr else old(user.lastLoginIp)
  {
    var locked := user.IsLockedNow(t.now);
    if locked {
      return Locked, HTTP_LOCKED;
    }
    if t.check.Raises? {
      return Propagated, 0;
    }
    if t.check.code == 200 {
      user.ResetFailedLogin();
      user.lastLoginIp := remoteAddr;
      return Success, t.check.code;
    } else {
      user.RecordFailedLogin(t.now);
      return Failure, t.check.code;
    }
  }

  // ---------------------------------------------------------------------------------------------
  // Runs of attempts.

  function Outcomes(a: Account, ts: seq<Attempt>): (os: seq<Outcome>)
    ensures |os| == |ts|
    decreases |ts|
  {
    if ts == [] then []
    else
      var (next, outcome) := Login(a, ts[0]);
      [outcome] + Outcomes(next, ts[1..])
  }

  function AccountAfter(a: Account, ts: seq<Attempt>): Account
    decreases |ts|
  {
    if ts == [] then a else AccountAfter(Login(a, ts[0]).0, ts[1..])
  }

  function TimeOf(t: Attempt): real {
    t.now
  }

  /** The counter has reached five exactly when a lock is set. */
  predicate Inv(a: Account) {
    a.failures >= MAX_FAILURES <==> a.lockedUntil.Some?
  }

  lemma {:induction false} LockSetIffFiveFailures(ts: seq<Attempt>, a: Account)
    requires Inv(a)
    ensures Inv(AccountAfter(a, ts))
    decreases |ts|
  {
    if ts == [] {
    } else {
      LockSetIffFiveFailures(ts[1..], Login(a, ts[0]).0);
    }
  }

  function Failures(os: seq<Outcome>): nat {
    if os == [] then 0 else (if os[0] == Failure then 1 else 0) + Failures(os[1..])
  }

  /** What is still possible before b, when nothing succeeds: the rest up to five, then one for each lock. */
  function Remaining(a: Account, k: nat): nat {
    (if a.failures >= MAX_FAILURES then 0 else MAX_FAILURES - 1 - a.failures) + k
  }

  /** With a lock set, failures before b come at most once for each lock duration after the lock. */
  lemma {:induction false} FailuresBounded(a: Account, ts: seq<Attempt>, from: real, b: real, k: nat)
    requires Inv(a) && Chronological(ts, TimeOf) && Success !in Outcomes(a, ts)
    requires forall i | 0 <= i < |ts| :: from <= ts[i].now < b
    requires if a.lockedUntil.Some? && a.lockedUntil.value >= from then b <= a.lockedUntil.value + Spans(LOCK_SECONDS, k)
             else b <= from + Spans(LOCK_SECONDS, k)
    ensures Failures(Outcomes(a, ts)) <= Remaining(a, k)
    decreases |ts|
  {
    if ts == [] {
    } else {
      var (next, outcome) := Login(a, ts[0]);
      var os := Outcomes(a, ts);
      assert os[0] == outcome && os[1..] == Outcomes(next, ts[1..]);
      assert Success !in os[1..];
      assert forall i | 0 <= i < |ts[1..]| :: ts[1..][i] == ts[i + 1];
      if outcome == Failure {
        assert k >= 1;
        if next.failures >= MAX_FAILURES {
          FailuresBounded(next, ts[1..], ts[0].now, b, k - 1);
        } else {
          FailuresBounded(next, ts[1..], from, b, k);
        }
      } else {
        FailuresBounded(next, ts[1..], from, b, k);
      }
    }
  }

  /**
   The sliding bound of the lockout. Take any stretch of attempts without a success whose times lie in an
   interval no longer than k lock durations: at most k + 4 of them reach a credential check that fails, so
   at most five in any half hour, whatever came before the stretch.
   */
  lemma {:induction false} LockoutSlidingBound(a: Account, ts: seq<Attempt>, from: real, b: real, k: nat)
    requires Inv(a) && Chronological(ts, TimeOf) && Success !in Outcomes(a, ts)
    requires forall i | 0 <= i < |ts| :: from <= ts[i].now < b
    requires b <= from + (k as real) * LOCK_SECONDS
    ensures Failures(Outcomes(a, ts)) <= k + MAX_FAILURES - 1
  {
    SpansIsProduct(LOCK_SECONDS, k);
    FailuresBounded(a, ts, from, b, k);
  }

  /** Without a success, failures that start with the fifth or later are at least a lock duration apart. */
  lemma {:induction false} FailuresApartAfterLock(a: Account, ts: seq<Attempt>, j: nat)
    requires Inv(a) && Chronological(ts, TimeOf) && Success !in Outcomes(a, ts)
    requires ts != [] && Outcomes(a, ts)[0] == Failure && a.failures + 1 >= MAX_FAILURES
    requires 0 < j < |ts| && Outcomes(a, ts)[j] == Failure
    ensures ts[j].now >= ts[0].now + LOCK_SECONDS
  {
    var next := Login(a, ts[0]).0;
    assert Outcomes(a, ts)[1..] == Outcomes(next, ts[1..]);
    FailureNotBeforeLock(next, ts[1..], j - 1);
  }

  lemma {:induction false} FailureNotBeforeLock(a: Account, ts: seq<Attempt>, j: nat)
    requires a.lockedUntil.Some? && Chronological(ts, TimeOf)
    requires j < |ts| && Outcomes(a, ts)[j] == Failure
    ensures ts[j].now >= a.lockedUntil.value
    decreases |ts|
  {
    var (next, outcome) := Login(a, ts[0]);
    if j == 0 {
    } else if outcome == Locked {
      assert Outcomes(a, ts)[1..] == Outcomes(next, ts[1..]);
      FailureNotBeforeLock(next, ts[1..], j - 1);
    }
  }

  function FailedAt(t: real): Attempt {
    Attempt(t, Status(401))
  }

  /** One failed check for each lock that runs out, k of them from time t. */
  function AtExpiries(t: real, k: nat): seq<Attempt>
    decreases k
  {
    if k == 0 then [] else [FailedAt(t)] + AtExpiries(t + LOCK_SECONDS, k - 1)
  }

  lemma OutcomesStep(a: Account, t: Attempt, ts: seq<Attempt>)
    ensures Outcomes(a, [t] + ts) == [Login(a, t).1] + Outcomes(Login(a, t).0, ts)
    ensures AccountAfter(a, [t] + ts) == AccountAfter(Login(a, t).0, ts)
  {
    assert ([t] + ts)[1..] == ts;
  }

  lemma {:induction false} ExpiriesFail(a: Account, t: real, k: nat)
    requires a.failures >= MAX_FAILURES && !IsLocked(a, t)
    ensures Failures(Outcomes(a, AtExpiries(t, k))) == k && Success !in Outcomes(a, AtExpiries(t, k))
    ensures Chronological(AtExpiries(t, k), TimeOf)
    ensures forall i | 0 <= i < |AtExpiries(t, k)| :: t <= AtExpiries(t, k)[i].now < t + Spans(LOCK_SECONDS, k)
    decreases k
  {
    if k == 0 {
    } else {
      var rest := AtExpiries(t + LOCK_SECONDS, k - 1);
      ExpiriesFail(AfterFailure(a, t), t + LOCK_SECONDS, k - 1);
      OutcomesStep(a, FailedAt(t), rest);
      SpansNotNegative(LOCK_SECONDS, k - 1);
    }
  }

  lemma {:induction false} FailingCounts(a: Account, t: real, n: nat, rest: seq<Attempt>)
    requires a.lockedUntil.None? && 1 <= n && a.failures + n == MAX_FAILURES
    ensures var locked := Account(MAX_FAILURES, Some(t + LOCK_SECONDS));
            && Outcomes(a, Repeat(FailedAt(t), n) + rest) == Repeat(Failure, n) + Outcomes(locked, rest)
            && AccountAfter(a, Repeat(FailedAt(t), n) + rest) == AccountAfter(locked, rest)
    decreases n
  {
    var next := AfterFailure(a, t);
    var others := Repeat(FailedAt(t), n - 1) + rest;
    assert Repeat(FailedAt(t), n) + rest == [FailedAt(t)] + others;
    OutcomesStep(a, FailedAt(t), others);
    if n == 1 {
      assert others == rest;
    } else {
      FailingCounts(next, t, n - 1, rest);
    }
    assert [Failure] + (Repeat(Failure, n - 1) + Outcomes(Account(MAX_FAILURES, Some(t + LOCK_SECONDS)), rest))
           == Repeat(Failure, n) + Outcomes(Account(MAX_FAILURES, Some(t + LOCK_SECONDS)), rest);
  }

  lemma {:induction false} RepeatedFailures(n: nat, os: seq<Outcome>)
    ensures Failures(Repeat(Failure, n) + os) == n + Failures(os)
    ensures Success in Repeat(Failure, n) + os <==> Success in os
    decreases n
  {
    if n == 0 {
      assert Repeat(Failure, n) + os == os;
    } else {
      assert (Repeat(Failure, n) + os)[1..] == Repeat(Failure, n - 1) + os;
      RepeatedFailures(n - 1, os);
    }
  }

  /** Five failed checks at time t lock the account for exactly thirty minutes. */
  lemma FiveFailuresLock(t: real, now: real)
    ensures Failures(Outcomes(NEW_ACCOUNT, Repeat(FailedAt(t), MAX_FAILURES))) == 5
    ensures IsLocked(AccountAfter(NEW_ACCOUNT, Repeat(FailedAt(t), MAX_FAILURES)), now) <==> now < t + 1800.0
  {
    FailingCounts(NEW_ACCOUNT, t, MAX_FAILURES, []);
    assert Repeat(FailedAt(t), MAX_FAILURES) + [] == Repeat(FailedAt(t), MAX_FAILURES);
    RepeatedFailures(MAX_FAILURES, []);
  }

  /** Five failures at once and one more whenever a lock runs out. */
  function WorstStretch(t: real, k: nat): seq<Attempt>
    requires k >= 1
  {
    Repeat(FailedAt(t), MAX_FAILURES) + AtExpiries(t + LOCK_SECONDS, k - 1)
  }

  lemma WorstStretchTimes(t: real, k: nat)
    requires k >= 1
    ensures Chronological(WorstStretch(t, k), TimeOf)
    ensures forall i | 0 <= i < |WorstStretch(t, k)| :: t <= WorstStretch(t, k)[i].now < t + Spans(LOCK_SECONDS, k)
  {
    var rest, locked := AtExpiries(t + LOCK_SECONDS, k - 1), Account(MAX_FAILURES, Some(t + LOCK_SECONDS));
    SpansNotNegative(LOCK_SECONDS, k - 1);
    ExpiriesFail(locked, t + LOCK_SECONDS, k - 1);
    assert forall i | 0 <= i < |rest| :: t <= TimeOf(rest[i]);
  }

  lemma WorstStretchFails(t: real, k: nat)
    requires k >= 1
    ensures var os := Outcomes(NEW_ACCOUNT, WorstStretch(t, k));
            Success !in os && Failures(os) == k + MAX_FAILURES - 1
  {
    var n, locked := MAX_FAILURES, Account(MAX_FAILURES, Some(t + LOCK_SECONDS));
    var rest := AtExpiries(t + LOCK_SECONDS, k - 1);
    var os := Outcomes(locked, rest);
    assert Outcomes(NEW_ACCOUNT, WorstStretch(t, k)) == Repeat(Failure, n) + os by {
      FailingCounts(NEW_ACCOUNT, t, n, rest);
    }
    assert Success !in os && Failures(os) == k - 1 by {
      ExpiriesFail(locked, t + LOCK_SECONDS, k - 1);
    }
    RepeatedFailures(n, os);
  }

  /** The sliding bound is attained for every k. */
  lemma LockoutSlidingBoundAttained(t: real, k: nat)
    requires k >= 1
    ensures var ts := WorstStretch(t, k);
            && Chronological(ts, TimeOf) && Success !in Outcomes(NEW_ACCOUNT, ts)
            && (forall i | 0 <= i < |ts| :: t <= ts[i].now < t + (k as real) * LOCK_SECONDS)
            && Failures(Outcomes(NEW_ACCOUNT, ts)) == k + MAX_FAILURES - 1
  {
    WorstStretchTimes(t, k);
    WorstStretchFails(t, k);
    SpansIsProduct(LOCK_SECONDS, k);
  }

  // ---------------------------------------------------------------------------------------------
  // Exactly when the lock comes.

  /** The attempts whose credential check answers something other than 200. */
  function Answered(ts: seq<Attempt>): nat {
    if ts == [] then 0 else (if ts[0].check.Status? && ts[0].check.code != 200 then 1 else 0) + Answered(ts[1..])
  }

  /**
   Without a success, a lock has been set exactly when the failures counted before and the checks that have
   answered "no" make five. A check that raises is not among them.
   */
  lemma {:induction false} LockComesIff(a: Account, ts: seq<Attempt>)
    requires Inv(a) && Success !in Outcomes(a, ts)
    ensures AccountAfter(a, ts).lockedUntil.Some? <==> a.failures + Answered(ts) >= MAX_FAILURES
    decreases |ts|
  {
    if ts == [] {
    } else {
      var (next, outcome) := Login(a, ts[0]);
      OutcomesStep(a, ts[0], ts[1..]);
      assert [ts[0]] + ts[1..] == ts;
      assert forall o | o in Outcomes(next, ts[1..]) :: o in Outcomes(a, ts);
      assert outcome in Outcomes(a, ts);
      LockComesIff(next, ts[1..]);
      if a.lockedUntil.Some? {
        LockStays(next, ts[1..]);
      }
    }
  }

  lemma {:induction false} LockStays(a: Account, ts: seq<Attempt>)
    requires a.lockedUntil.Some? && Inv(a) && Success !in Outcomes(a, ts)
    ensures AccountAfter(a, ts).lockedUntil.Some?
    decreases |ts|
  {
    if ts == [] {
    } else {
      var (next, outcome) := Login(a, ts[0]);
      OutcomesStep(a, ts[0], ts[1..]);
      assert [ts[0]] + ts[1..] == ts;
      assert forall o | o in Outcomes(next, ts[1..]) :: o in Outcomes(a, ts);
      assert outcome in Outcomes(a, ts);
      LockStays(next, ts[1..]);
    }
  }

  /** So checks that raise change nothing, however many there are. */
  lemma {:induction false} RaisingChecksNeverLock(a: Account, ts: seq<Attempt>)
    requires forall i | 0 <= i < |ts| :: ts[i].check.Raises?
    ensures AccountAfter(a, ts) == a
    decreases |ts|
  {
    if ts == [] {
    } else {
      RaisingChecksNeverLock(a, ts[1..]);
    }
  }

  // ---------------------------------------------------------------------------------------------
  // The account and the answers in terms of the attempts and answers before them, successes included.

  /** How many failures there have been since the last success. */
  function FailuresSinceSuccess(os: seq<Outcome>): nat {
    if os == [] then 0
    else
      var before := FailuresSinceSuccess(os[..|os| - 1]);
      match os[|os| - 1]
      case Success => 0
      case Failure => before + 1
      case _ => before
  }

  /** When the last failure was. */
  function LastFailure(ts: seq<Attempt>, os: seq<Outcome>): Option<real>
    requires |ts| == |os|
  {
    if os == [] then None
    else if os[|os| - 1] == Failure then Some(ts[|ts| - 1].now)
    else LastFailure(ts[..|ts| - 1], os[..|os| - 1])
  }

  /** There have been five failures since the last success, the last of them less than thirty minutes before now. */
  predicate LockedOut(ts: seq<Attempt>, os: seq<Outcome>, now: real)
    requires |ts| == |os|
  {
    FailuresSinceSuccess(os) >= 5 && LastFailure(ts, os).Some? && now < LastFailure(ts, os).value + 1800.0
  }

  /** The account remembers how many failures there were since the last success and, from five on, when the last was. */
  ghost predicate Remembers(a: Account, ts: seq<Attempt>, os: seq<Outcome>)
    requires |ts| == |os|
  {
    && a.failures == FailuresSinceSuccess(os)
    && (a.failures < 5 ==> a.lockedUntil.None?)
    && (a.failures >= 5 ==> LastFailure(ts, os).Some? && a.lockedUntil == Some(LastFailure(ts, os).value + 1800.0))
  }

  lemma {:induction false} OutcomesSnoc(a: Account, ts: seq<Attempt>, t: Attempt)
    ensures Outcomes(a, ts + [t]) == Outcomes(a, ts) + [Login(AccountAfter(a, ts), t).1]
    ensures AccountAfter(a, ts + [t]) == Login(AccountAfter(a, ts), t).0
    decreases |ts|
  {
    if ts == [] {
      assert ts + [t] == [t] && [t][1..] == [];
    } else {
      assert (ts + [t])[1..] == ts[1..] + [t];
      OutcomesSnoc(Login(a, ts[0]).0, ts[1..], t);
    }
  }

  lemma LoginRemembers(a: Account, ts: seq<Attempt>, os: seq<Outcome>, t: Attempt)
    requires |ts| == |os| && Remembers(a, ts, os)
    ensures IsLocked(a, t.now) <==> LockedOut(ts, os, t.now)
    ensures Remembers(Login(a, t).0, ts + [t], os + [Login(a, t).1])
  {
    var outcome := Login(a, t).1;
    assert (ts + [t])[..|ts|] == ts && (os + [outcome])[..|os|] == os;
  }

  /**
   In every run from a new account, successes included: the counter is the number of failures since the last
   success, and a lock is set, until thirty minutes after the last failure, exactly when they are five or more.
   */
  lemma {:induction false} CounterIsFailuresSinceSuccess(ts: seq<Attempt>)
    ensures var a, os := AccountAfter(NEW_ACCOUNT, ts), Outcomes(NEW_ACCOUNT, ts);
            && a.failures == FailuresSinceSuccess(os)
            && (a.lockedUntil.Some? <==> FailuresSinceSuccess(os) >= 5)
            && (a.lockedUntil.Some? ==>
                  LastFailure(ts, os).Some? && a.lockedUntil.value == LastFailure(ts, os).value + 1800.0)
    decreases |ts|
  {
    HistoryRemembered(ts);
  }

  lemma {:induction false} HistoryRemembered(ts: seq<Attempt>)
    ensures Remembers(AccountAfter(NEW_ACCOUNT, ts), ts, Outcomes(NEW_ACCOUNT, ts))
    decreases |ts|
  {
    if ts == [] {
    } else {
      var before, t := ts[..|ts| - 1], ts[|ts| - 1];
      assert ts == before + [t];
      HistoryRemembered(before);
      OutcomesSnoc(NEW_ACCOUNT, before, t);
      LoginRemembers(AccountAfter(NEW_ACCOUNT, before), before, Outcomes(NEW_ACCOUNT, before), t);
    }
  }

  /**
   And each attempt of such a run is answered as the attempts and answers before it say: refused exactly when they
   lock it out, otherwise a success exactly when the check says 200, a failure when it says anything else, and
   passed on when it raises.
   */
  lemma {:induction false} OutcomesFollowHistory(ts: seq<Attempt>, j: nat)
    requires j < |ts|
    ensures var os := Outcomes(NEW_ACCOUNT, ts);
            var locked := LockedOut(ts[..j], os[..j], ts[j].now);
            && (os[j] == Locked <==> locked)
            && (os[j] == Success <==> !locked && ts[j].check == Status(200))
            && (os[j] == Failure <==> !locked && ts[j].check.Status? && ts[j].check.code != 200)
            && (os[j] == Propagated <==> !locked && ts[j].check.Raises?)
    decreases |ts|
  {
    var before, t := ts[..|ts| - 1], ts[|ts| - 1];
    assert ts == before + [t];
    OutcomesSnoc(NEW_ACCOUNT, before, t);
    if j == |ts| - 1 {
      HistoryRemembered(before);
      LoginRemembers(AccountAfter(NEW_ACCOUNT, before), before, Outcomes(NEW_ACCOUNT, before), t);
    } else {
      OutcomesFollowHistory(before, j);
      assert ts[..j] == before[..j];
      assert Outcomes(NEW_ACCOUNT, ts)[..j] == Outcomes(NEW_ACCOUNT, before)[..j];
    }
  }
}

/**
 The login lockout of one account: failures are counted backwards from the latest attempt
 inside a sliding window, and a locked account records nothing.
 */
module Lockout {
  datatype Attempt = Attempt(at: nat, success: bool)

  /** The limits of the tenant, in the clock's unit. */
  datatype Limits = Limits(max: nat, window: nat)

  // ----- the check -----

  function Recent(attempts: seq<Attempt>, start: int): seq<Attempt> {
    if attempts == [] then []
    else
      var rest, last := Recent(attempts[..|attempts| - 1], start), attempts[|attempts| - 1];
      if last.at >= start then rest + [last] else rest
  }

  /** Failures at the end of the list. */
  function Consecutive(attempts: seq<Attempt>): nat {
    if attempts == [] || attempts[|attempts| - 1].success then 0
    else 1 + Consecutive(attempts[..|attempts| - 1])
  }

  predicate Locked(attempts: seq<Attempt>, lim: Limits, now: nat) {
    Consecutive(Recent(attempts, now - lim.window)) >= lim.max
  }

  /** Attempts in order of time. */
  predicate InOrder(attempts: seq<Attempt>) {
    forall i, j | 0 <= i < j < |attempts| :: attempts[i].at <= attempts[j].at
  }

  class Account {
    const lim: Limits
    var attempts: seq<Attempt>

    constructor (lim: Limits)
      ensures this.lim == lim && attempts == []
    {
      this.lim := lim;
      attempts := [];
    }

    method IsLockedOut(now: nat) returns (locked: bool)
      ensures locked == Locked(attempts, lim, now)
    {
      var recent := Recent(attempts, now - lim.window);
      var consecutive, i := 0, |recent|;
      assert recent[..|recent|] == recent;
      while i > 0
        invariant 0 <= i <= |recent|
        invariant consecutive + Consecutive(recent[..i]) == Consecutive(recent)
      {
        assert recent[..i][..i - 1] == recent[..i - 1];
        if recent[i - 1].success { break; }
        consecutive := consecutive + 1;
        i := i - 1;
      }
      assert i > 0 ==> Consecutive(recent[..i]) == 0;
      locked := consecutive >= lim.max;
    }

    /** None while locked; otherwise whether the password was right, which is recorded. */
    method Login(now: nat, passwordOk: bool) returns (refused: bool)
      modifies this`attempts
      ensures refused == Locked(old(attempts), lim, now)
      ensures attempts == AfterLogin(old(attempts), lim, now, passwordOk)
    {
      refused := IsLockedOut(now);
      if !refused { attempts := attempts + [Attempt(now, passwordOk)]; }
    }
  }

  function AfterLogin(attempts: seq<Attempt>, lim: Limits, now: nat, passwordOk: bool): seq<Attempt> {
    if Locked(attempts, lim, now) then attempts else attempts + [Attempt(now, passwordOk)]
  }

  // ----- runs -----

  datatype LoginCall = LoginCall(at: nat, passwordOk: bool)

  predicate ClockForward(logins: seq<LoginCall>) {
    forall i, j | 0 <= i < j < |logins| :: logins[i].at <= logins[j].at
  }

  function Recorded(lim: Limits, logins: seq<LoginCall>): seq<Attempt> {
    if logins == [] then []
    else
      var last := logins[|logins| - 1];
      AfterLogin(Recorded(lim, logins[..|logins| - 1]), lim, last.at, last.passwordOk)
  }

  lemma {:induction false} RecordedInOrder(lim: Limits, logins: seq<LoginCall>)
    requires ClockForward(logins)
    ensures InOrder(Recorded(lim, logins))
    ensures logins != [] ==> forall a | a in Recorded(lim, logins) :: a.at <= logins[|logins| - 1].at
  {
    if logins != [] {
      var k := |logins| - 1;
      RecordedInOrder(lim, logins[..k]);
      assert k > 0 ==> logins[..k][k - 1] == logins[k - 1];
      AppendInOrder(Recorded(lim, logins[..k]), Attempt(logins[k].at, logins[k].passwordOk));
    }
  }

  lemma {:induction false} AppendInOrder(before: seq<Attempt>, last: Attempt)
    requires InOrder(before) && forall a | a in before :: a.at <= last.at
    ensures InOrder(before + [last]) && forall a | a in before + [last] :: a.at <= last.at
  {
    assert forall i | 0 <= i < |before| :: before[i] in before;
  }

  // ----- when an account is locked -----

  /** The latest `n` attempts failed inside the window. */
  predicate FailedLately(attempts: seq<Attempt>, n: nat, start: int) {
    n <= |attempts| && forall i | |attempts| - n <= i < |attempts| :: !attempts[i].success && attempts[i].at >= start
  }

  lemma {:induction false} RecentNothing(attempts: seq<Attempt>, start: int)
    requires forall a | a in attempts :: a.at < start
    ensures Recent(attempts, start) == []
  {
    if attempts != [] {
      var k := |attempts| - 1;
      assert attempts[k] in attempts && forall a | a in attempts[..k] :: a in attempts;
      RecentNothing(attempts[..k], start);
    }
  }

  lemma {:induction false} ConsecutiveExact(attempts: seq<Attempt>, n: nat, start: int)
    requires InOrder(attempts)
    ensures Consecutive(Recent(attempts, start)) >= n <==> FailedLately(attempts, n, start)
  {
    if attempts != [] && n > 0 {
      var k := |attempts| - 1;
      var last, recent := attempts[k], Recent(attempts[..k], start);
      if last.at >= start {
        assert (recent + [last])[..|recent|] == recent;
        ConsecutiveExact(attempts[..k], n - 1, start);
      } else {
        RecentNothing(attempts, start);
      }
    }
  }

  /** Locked exactly when the latest attempts, as many as are allowed, failed inside the window. */
  lemma {:induction false} LockedExact(attempts: seq<Attempt>, lim: Limits, now: nat)
    requires InOrder(attempts)
    ensures Locked(attempts, lim, now) <==> FailedLately(attempts, lim.max, now - lim.window)
  {
    ConsecutiveExact(attempts, lim.max, now - lim.window);
  }

  /** A lock ends once its window has passed. */
  lemma {:induction false} LockEnds(attempts: seq<Attempt>, lim: Limits, now: nat)
    requires InOrder(attempts) && lim.max >= 1
    requires attempts != [] ==> attempts[|attempts| - 1].at + lim.window < now || attempts[|attempts| - 1].success
    ensures !Locked(attempts, lim, now)
  {
    LockedExact(attempts, lim, now);
  }

  /** After a right password that was not refused the account is not locked, now or until something else happens. */
  lemma {:induction false} RightPasswordUnlocks(attempts: seq<Attempt>, lim: Limits, now: nat, later: nat)
    requires InOrder(attempts) && (forall a | a in attempts :: a.at <= now) && lim.max >= 1
    requires !Locked(attempts, lim, now)
    ensures !Locked(AfterLogin(attempts, lim, now, true), lim, later)
  {
    AppendInOrder(attempts, Attempt(now, true));
    LockEnds(attempts + [Attempt(now, true)], lim, later);
  }

  /** A wrong password that was not refused counts: together with one less before it than is allowed it locks. */
  lemma {:induction false} WrongPasswordCounts(attempts: seq<Attempt>, lim: Limits, now: nat, n: nat, start: int)
    requires !Locked(attempts, lim, now) && FailedLately(attempts, n, start) && start <= now
    ensures FailedLately(AfterLogin(attempts, lim, now, false), n + 1, start)
  {
  }

  /** A refused login leaves everything as it was. */
  lemma {:induction false} LockedRecordsNothing(attempts: seq<Attempt>, lim: Limits, now: nat, passwordOk: bool)
    ensures AfterLogin(attempts, lim, now, passwordOk) == attempts <==> Locked(attempts, lim, now)
  {
  }

  // ----- the sliding window -----

  function Failures(attempts: seq<Attempt>, lo: int, hi: int): nat {
    if attempts == [] then 0
    else
      var last := attempts[|attempts| - 1];
      Failures(attempts[..|attempts| - 1], lo, hi) + if !last.success && lo <= last.at <= hi then 1 else 0
  }

  predicate NoSuccess(attempts: seq<Attempt>, lo: int, hi: int) {
    forall a | a in attempts && lo <= a.at <= hi :: !a.success
  }

  lemma {:induction false} NoFailures(attempts: seq<Attempt>, lo: int, hi: int)
    requires forall a | a in attempts :: a.at < lo
    ensures Failures(attempts, lo, hi) == 0
  {
    if attempts != [] {
      var k := |attempts| - 1;
      assert attempts[k] in attempts && forall a | a in attempts[..k] :: a in attempts;
      NoFailures(attempts[..k], lo, hi);
    }
  }

  lemma {:induction false} LastIsLatest(attempts: seq<Attempt>)
    requires InOrder(attempts) && attempts != []
    ensures forall a | a in attempts :: a.at <= attempts[|attempts| - 1].at
  {
  }

  /** Up to the end of a stretch without success, its failures are the latest attempts. */
  lemma {:induction false} FailuresAreLatest(attempts: seq<Attempt>, lo: int, hi: int)
    requires InOrder(attempts) && NoSuccess(attempts, lo, hi) && forall a | a in attempts :: a.at <= hi
    ensures FailedLately(attempts, Failures(attempts, lo, hi), lo)
  {
    if attempts != [] {
      var k := |attempts| - 1;
      assert attempts[k] in attempts && forall a | a in attempts[..k] :: a in attempts;
      if attempts[k].at < lo {
        LastIsLatest(attempts);
        NoFailures(attempts, lo, hi);
      } else {
        FailuresAreLatest(attempts[..k], lo, hi);
        assert FailedLately(attempts[..k], Failures(attempts[..k], lo, hi), lo);
      }
    }
  }

  lemma {:induction false} FewerNeeded(attempts: seq<Attempt>, n: nat, m: nat, start: int, earlier: int)
    requires FailedLately(attempts, n, start) && m <= n && earlier <= start
    ensures FailedLately(attempts, m, earlier)
  {
  }

  /** A failure recorded inside the stretch finds fewer failures there than are allowed. */
  lemma {:induction false} RoomForFailure(before: seq<Attempt>, lim: Limits, now: nat, lo: int)
    requires InOrder(before) && (forall a | a in before :: a.at <= now) && lo <= now <= lo + lim.window
    requires NoSuccess(before, lo, lo + lim.window) && !Locked(before, lim, now)
    ensures Failures(before, lo, lo + lim.window) < lim.max
  {
    var n := Failures(before, lo, lo + lim.window);
    FailuresAreLatest(before, lo, lo + lim.window);
    LockedExact(before, lim, now);
    if n >= lim.max { FewerNeeded(before, n, lim.max, lo, now - lim.window); }
  }

  lemma {:induction false} LastFailure(before: seq<Attempt>, last: Attempt, lo: int, hi: int)
    ensures Failures(before + [last], lo, hi)
            == Failures(before, lo, hi) + if !last.success && lo <= last.at <= hi then 1 else 0
  {
    assert (before + [last])[..|before|] == before;
  }

  /** No stretch as long as the window that saw no success holds more failures than are allowed. */
  lemma {:induction false} WindowBounded(lim: Limits, logins: seq<LoginCall>, lo: int)
    requires ClockForward(logins) && NoSuccess(Recorded(lim, logins), lo, lo + lim.window)
    ensures Failures(Recorded(lim, logins), lo, lo + lim.window) <= lim.max
  {
    if logins != [] {
      var k := |logins| - 1;
      var before, last, after := Recorded(lim, logins[..k]), logins[k], Recorded(lim, logins);
      RecordedInOrder(lim, logins[..k]);
      RecordedBefore(lim, logins);
      assert forall a | a in before :: a in after;
      WindowBounded(lim, logins[..k], lo);
      if after != before {
        LastFailure(before, Attempt(last.at, last.passwordOk), lo, lo + lim.window);
        if !last.passwordOk && lo <= last.at <= lo + lim.window { RoomForFailure(before, lim, last.at, lo); }
      }
    }
  }

  lemma {:induction false} RecordedBefore(lim: Limits, logins: seq<LoginCall>)
    requires ClockForward(logins) && logins != []
    ensures forall a | a in Recorded(lim, logins[..|logins| - 1]) :: a.at <= logins[|logins| - 1].at
  {
    RecordedInOrder(lim, logins[..|logins| - 1]);
  }
}

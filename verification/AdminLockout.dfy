/** Login lockout. Every step is one conditional UPDATE on an admins row together with its clock reading;
    requests race, so statements of any number of requests may follow each other in any order. */
module AdminLockout {

  // MaxFailedAttempts and LockoutDuration.
  datatype Limits = Limits(max: nat, duration: nat)

  datatype Lock = Unlocked | Until(t: int)

  // failed_attempts and locked_until.
  datatype Row = Row(failed: int, lock: Lock)

  datatype Statement =
    | ReserveAttempt
    | LockIfExhausted
    | ClearExpiredLock
    | RecordLoginSuccess
    | GiveBack             // VerifyPassword succeeded
    | ResetForBootstrap

  function Exec(l: Limits, r: Row, s: Statement, now: int): Row {
    match s
    case ReserveAttempt => if r.failed < l.max then r.(failed := r.failed + 1) else r
    case LockIfExhausted => if r.failed >= l.max && r.lock.Unlocked? then r.(lock := Until(now + l.duration)) else r
    case ClearExpiredLock => if r.lock.Until? && r.lock.t <= now then Row(0, Unlocked) else r
    case RecordLoginSuccess => Row(0, Unlocked)
    case GiveBack => if r.lock.Unlocked? then r.(failed := 0) else r
    case ResetForBootstrap => Row(0, Unlocked)
  }

  // The WHERE clause: whether the statement affects the row.
  predicate Touches(l: Limits, r: Row, s: Statement, now: int) {
    match s
    case ReserveAttempt => r.failed < l.max
    case LockIfExhausted => r.failed >= l.max && r.lock.Unlocked?
    case ClearExpiredLock => r.lock.Until? && r.lock.t <= now
    case GiveBack => r.lock.Unlocked?
    case RecordLoginSuccess => true
    case ResetForBootstrap => true
  }

  // A granted attempt is one that gets to check a password.
  predicate Granted(l: Limits, r: Row, s: Statement) {
    s.ReserveAttempt? && r.failed < l.max
  }

  // ----- the row and the requests as they run ---------------------------------------------

  datatype Outcome = AccountLocked | InvalidCreds | AccountDisabled | Accepted

  class Account {
    var row: Row

    constructor ()
      ensures row == Row(0, Unlocked)
    {
      row := Row(0, Unlocked);
    }

    method Update(l: Limits, s: Statement, now: int) returns (touched: bool)
      modifies this
      ensures row == Exec(l, old(row), s, now)
      ensures touched == Touches(l, old(row), s, now) && (!touched ==> row == old(row))
      ensures s.ReserveAttempt? ==> touched == Granted(l, old(row), s)
    {
      touched := Touches(l, row, s, now);
      if !touched { return; }
      match s
      case ReserveAttempt => row := row.(failed := row.failed + 1);
      case LockIfExhausted => row := row.(lock := Until(now + l.duration));
      case ClearExpiredLock => row := Row(0, Unlocked);
      case RecordLoginSuccess => row := Row(0, Unlocked);
      case GiveBack => row := row.(failed := 0);
      case ResetForBootstrap => row := Row(0, Unlocked);
    }

    /** verifyPasswordFactor of a request nobody interrupts, at time now. */
    method VerifyPasswordFactor(l: Limits, now: int, passwordMatches: bool, disabled: bool) returns (o: Outcome)
      modifies this
      ensures row == Attempt(l, old(row), now, passwordMatches).row
      ensures o.AccountLocked? <==> !Attempt(l, old(row), now, passwordMatches).granted
      ensures !o.AccountLocked? ==>
                o == if !passwordMatches then InvalidCreds else if disabled then AccountDisabled else Accepted
    {
      if row.lock.Until? {
        if now < row.lock.t { return AccountLocked; }
        var _ := Update(l, ClearExpiredLock, now);
      }
      var reserved := Update(l, ReserveAttempt, now);
      if !reserved {
        var _ := Update(l, LockIfExhausted, now);
        return AccountLocked;
      }
      if !passwordMatches {
        var _ := Update(l, LockIfExhausted, now);
        return InvalidCreds;
      }
      if disabled { return AccountDisabled; }
      return Accepted;
    }
  }

  datatype Attempted = Attempted(row: Row, granted: bool)

  // An uninterrupted attempt: what it leaves and whether the password was checked.
  function Attempt(l: Limits, r: Row, now: int, passwordMatches: bool): Attempted {
    if r.lock.Until? && now < r.lock.t then Attempted(r, false)
    else
      var open := Exec(l, r, ClearExpiredLock, now);
      var reserved := Exec(l, open, ReserveAttempt, now);
      if !Granted(l, open, ReserveAttempt) then Attempted(Exec(l, reserved, LockIfExhausted, now), false)
      else if passwordMatches then Attempted(reserved, true)
      else Attempted(Exec(l, reserved, LockIfExhausted, now), true)
  }

  // ----- runs -----------------------------------------------------------------------------------

  datatype Step = Step(s: Statement, now: int)

  ghost function Run(l: Limits, r: Row, steps: seq<Step>): Row
    decreases |steps|
  {
    if steps == [] then r else Run(l, Exec(l, r, steps[0].s, steps[0].now), steps[1..])
  }

  ghost function Grants(l: Limits, r: Row, steps: seq<Step>): nat
    decreases |steps|
  {
    if steps == [] then 0
    else (if Granted(l, r, steps[0].s) then 1 else 0)
         + Grants(l, Exec(l, r, steps[0].s, steps[0].now), steps[1..])
  }

  // The clock never runs backwards, and starts at or after since.
  ghost predicate Clocked(steps: seq<Step>, since: int) {
    && (forall i :: 0 <= i < |steps| ==> since <= steps[i].now)
    && (forall i, j :: 0 <= i < j < |steps| ==> steps[i].now <= steps[j].now)
  }

  // Nobody completes a login or a step-up, and the account is not reset.
  ghost predicate OnlyFailures(steps: seq<Step>) {
    forall i :: 0 <= i < |steps| ==>
                  steps[i].s.ReserveAttempt? || steps[i].s.LockIfExhausted? || steps[i].s.ClearExpiredLock?
  }

  ghost predicate Valid(l: Limits, r: Row) {
    0 <= r.failed <= l.max && (r.lock.Until? ==> r.failed == l.max)
  }

  /** Over every interleaving: 0 <= failed_attempts <= max, and a set lock means exactly max. */
  lemma {:induction false} RunKeepsValid(l: Limits, r: Row, steps: seq<Step>)
    requires Valid(l, r)
    ensures Valid(l, Run(l, r, steps))
    decreases |steps|
  {
    if steps != [] { RunKeepsValid(l, Exec(l, r, steps[0].s, steps[0].now), steps[1..]); }
  }

  // g attempts were granted since time start: they are all still counted, and a lock that could expire
  // before start + duration was there before any of them.
  ghost predicate Counted(l: Limits, r: Row, start: int, g: nat) {
    Valid(l, r) && g <= r.failed && (r.lock.Until? ==> r.lock.t >= start + l.duration || g == 0)
  }

  lemma {:induction false} SpanCounted(l: Limits, r: Row, steps: seq<Step>, start: int, g: nat)
    requires Counted(l, r, start, g) && OnlyFailures(steps) && Clocked(steps, start)
    requires forall i :: 0 <= i < |steps| ==> steps[i].now < start + l.duration
    ensures g + Grants(l, r, steps) <= l.max
    decreases |steps|
  {
    if steps != [] {
      var s, rest := steps[0], steps[1..];
      assert s.s.ReserveAttempt? || s.s.LockIfExhausted? || s.s.ClearExpiredLock?;
      assert start <= s.now < start + l.duration;
      SpanCounted(l, Exec(l, r, s.s, s.now), rest, start, g + if Granted(l, r, s.s) then 1 else 0);
    }
  }

  /** Any span shorter than the lockout duration without a success or a reset grants at most max attempts,
      from every valid row, locked or not, whatever the requests in flight do. */
  lemma SpanBound(l: Limits, r: Row, steps: seq<Step>, start: int)
    requires Valid(l, r) && OnlyFailures(steps) && Clocked(steps, start)
    requires forall i :: 0 <= i < |steps| ==> steps[i].now < start + l.duration
    ensures Grants(l, r, steps) <= l.max
  {
    SpanCounted(l, r, steps, start, 0);
  }

  lemma {:induction false} GrantsSplit(l: Limits, r: Row, a: seq<Step>, b: seq<Step>)
    ensures Grants(l, r, a + b) == Grants(l, r, a) + Grants(l, Run(l, r, a), b)
    decreases |a|
  {
    if a == [] {
      assert a + b == b;
    } else {
      assert (a + b)[1..] == a[1..] + b;
      GrantsSplit(l, Exec(l, r, a[0].s, a[0].now), a[1..], b);
    }
  }

  // How many of the first steps happen before time t.
  ghost function Before(steps: seq<Step>, t: int): (n: nat)
    ensures n <= |steps| && (forall i :: 0 <= i < n ==> steps[i].now < t)
    ensures n < |steps| ==> steps[n].now >= t
  {
    if steps == [] || steps[0].now >= t then 0 else 1 + Before(steps[1..], t)
  }

  ghost predicate Within(steps: seq<Step>, t: int) {
    forall i :: 0 <= i < |steps| ==> steps[i].now < t
  }

  // k times x.
  function Times(k: nat, x: int): int {
    if k == 0 then 0 else x + Times(k - 1, x)
  }

  lemma {:induction false} TimesIs(k: nat, x: int)
    ensures Times(k, x) == k * x
  {
    if k > 0 { TimesIs(k - 1, x); }
  }

  lemma {:induction false} SpansBound(l: Limits, r: Row, steps: seq<Step>, start: int, k: nat)
    requires Valid(l, r) && OnlyFailures(steps) && Clocked(steps, start) && Within(steps, start + Times(k, l.duration))
    ensures Grants(l, r, steps) <= Times(k, l.max)
    decreases k
  {
    if k == 0 {
      NoneInNoTime(steps, start);
    } else {
      var n := Before(steps, start + l.duration);
      Later(l, steps, start, Times(k - 1, l.duration), n);
      RunKeepsValid(l, r, steps[..n]);
      SpansBound(l, Run(l, r, steps[..n]), steps[n..], start + l.duration, k - 1);
      FirstSpan(l, r, steps, start, n);
    }
  }

  /** Guessing is slow: k lockout durations without a success or a reset grant at most k times max attempts. */
  lemma RateBound(l: Limits, r: Row, steps: seq<Step>, start: int, k: nat)
    requires Valid(l, r) && OnlyFailures(steps) && Clocked(steps, start) && Within(steps, start + k * l.duration)
    ensures Grants(l, r, steps) <= k * l.max
  {
    TimesIs(k, l.duration);
    TimesIs(k, l.max);
    SpansBound(l, r, steps, start, k);
  }

  lemma NoneInNoTime(steps: seq<Step>, start: int)
    ensures Clocked(steps, start) && Within(steps, start) ==> steps == []
  {
    if steps != [] {
      assert Clocked(steps, start) ==> start <= steps[0].now;
      assert Within(steps, start) ==> steps[0].now < start;
    }
  }

  lemma FirstSpan(l: Limits, r: Row, steps: seq<Step>, start: int, n: nat)
    requires Valid(l, r) && OnlyFailures(steps) && Clocked(steps, start) && n == Before(steps, start + l.duration)
    ensures Grants(l, r, steps) <= l.max + Grants(l, Run(l, r, steps[..n]), steps[n..])
  {
    assert steps == steps[..n] + steps[n..];
    GrantsSplit(l, r, steps[..n], steps[n..]);
    SpanBound(l, r, steps[..n], start);
  }

  lemma Later(l: Limits, steps: seq<Step>, start: int, more: int, n: nat)
    requires Clocked(steps, start) && n == Before(steps, start + l.duration) && Within(steps, start + l.duration + more)
    ensures Clocked(steps[n..], start + l.duration) && Within(steps[n..], start + l.duration + more)
  {
    forall i | 0 <= i < |steps[n..]| ensures start + l.duration <= steps[n..][i].now {
      assert steps[n..][i] == steps[n + i] && steps[n].now <= steps[n + i].now;
    }
  }

  // ----- nobody is locked out for good ------------------------------------------------------------

  // A lock set by a statement at or before clock.
  ghost predicate LockInReach(l: Limits, r: Row, clock: int) {
    r.lock.Until? ==> r.lock.t <= clock + l.duration
  }

  lemma {:induction false} RunKeepsReach(l: Limits, r: Row, steps: seq<Step>, since: int, clock: int)
    requires LockInReach(l, r, since) && Clocked(steps, since) && since <= clock
    requires forall i :: 0 <= i < |steps| ==> steps[i].now <= clock
    ensures LockInReach(l, Run(l, r, steps), clock)
    decreases |steps|
  {
    if steps != [] {
      assert steps[0].now <= clock;
      RunKeepsReach(l, Exec(l, r, steps[0].s, steps[0].now), steps[1..], steps[0].now, clock);
    }
  }

  /** From every reachable row an attempt is granted after at most one more lockout: the first attempt from now on
      is granted, or the next one a lockout duration later is. */
  lemma NotLockedOutForever(l: Limits, r: Row, steps: seq<Step>, since: int, now: int, later: int, matches: bool, matches': bool)
    requires l.max > 0 && Valid(l, r) && LockInReach(l, r, since) && Clocked(steps, since) && since <= now
    requires forall i :: 0 <= i < |steps| ==> steps[i].now <= now
    requires later >= now + l.duration
    ensures var first := Attempt(l, Run(l, r, steps), now, matches);
            first.granted || Attempt(l, first.row, later, matches').granted
  {
    RunKeepsValid(l, r, steps);
    RunKeepsReach(l, r, steps, since, now);
  }

  /** The attempt counter alone would: without the clearing step a full counter refuses every reservation. */
  lemma OnlyClearingReopens(l: Limits, r: Row, steps: seq<Step>)
    requires r.failed >= l.max && forall i :: 0 <= i < |steps| ==> steps[i].s.ReserveAttempt? || steps[i].s.LockIfExhausted?
    ensures Grants(l, r, steps) == 0
    decreases |steps|
  {
    if steps != [] {
      assert steps[0].s.ReserveAttempt? || steps[0].s.LockIfExhausted?;
      OnlyClearingReopens(l, Exec(l, r, steps[0].s, steps[0].now), steps[1..]);
    }
  }

  // ----- a clean start and a standing lock -------------------------------------------------------

  datatype Try = Try(now: int, matches: bool)

  // Uninterrupted attempts one after the other, and how many of them got to check a password.
  ghost function Tried(l: Limits, r: Row, tries: seq<Try>): Row {
    if tries == [] then r
    else Attempt(l, Tried(l, r, tries[..|tries| - 1]), tries[|tries| - 1].now, tries[|tries| - 1].matches).row
  }

  ghost function Checked(l: Limits, r: Row, tries: seq<Try>): nat {
    if tries == [] then 0
    else
      var n := |tries| - 1;
      Checked(l, r, tries[..n]) + if Attempt(l, Tried(l, r, tries[..n]), tries[n].now, tries[n].matches).granted then 1 else 0
  }

  // The statements after which an account starts afresh.
  ghost predicate Clears(r: Row, s: Statement, now: int) {
    match s
    case RecordLoginSuccess => true
    case ResetForBootstrap => true
    case ClearExpiredLock => r.lock.Until? && r.lock.t <= now
    case GiveBack => r.lock.Unlocked?
    case _ => false
  }

  /** A login, a reset, an expired lock and a step-up on an unlocked account give the whole budget back: of the attempts
      that follow the first max are all granted, each is counted, and only a mismatch that uses the budget up locks, for
      the lockout duration from then. */
  lemma {:induction false} WholeBudget(l: Limits, r: Row, s: Statement, start: int, tries: seq<Try>)
    requires Clears(r, s, start) && |tries| <= l.max
    ensures var n := |tries|;
            && Checked(l, Exec(l, r, s, start), tries) == n
            && Tried(l, Exec(l, r, s, start), tries)
               == Row(n, if n > 0 && n == l.max && !tries[n - 1].matches then Until(tries[n - 1].now + l.duration) else Unlocked)
    decreases |tries|
  {
    if tries != [] { WholeBudget(l, r, s, start, tries[..|tries| - 1]); }
  }

  /** Until it expires a lock stands against everything but a login in flight and a reset: no attempt is granted, and
      no other statement changes the row. */
  lemma LockStands(l: Limits, r: Row, s: Statement, now: int, matches: bool)
    requires Valid(l, r) && r.lock.Until? && now < r.lock.t
    ensures Attempt(l, r, now, matches) == Attempted(r, false)
    ensures !s.RecordLoginSuccess? && !s.ResetForBootstrap? ==> Exec(l, r, s, now) == r
  {
  }

  /** An unlocked account whose budget is used up is locked by the next attempt, which is not granted. */
  lemma UsedUpLocks(l: Limits, r: Row, now: int, matches: bool)
    requires Valid(l, r) && r == Row(l.max, Unlocked)
    ensures Attempt(l, r, now, matches) == Attempted(Row(l.max, Until(now + l.duration)), false)
  {
  }
}

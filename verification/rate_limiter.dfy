/** The login rate limiter: a per-address sliding-window failure counter.
    The clock is an explicit `now` (milliseconds) instead of `Date.now()`. */
module RateLimiter {
  import opened Common

  const DefaultMaxAttempts: int := 5
  const DefaultWindowMs: int := 15 * 60 * 1000

  /** Failures counted for one address since `firstAttempt`. */
  datatype Entry = Entry(count: nat, firstAttempt: int)

  datatype Limiter = Limiter(maxAttempts: int, windowMs: int, attempts: map<string, Entry>)

  /** The answer of `isBlocked` together with the limiter it leaves behind
      (an expired entry is deleted as a side effect). */
  datatype Check = Check(blocked: bool, limiter: Limiter)

  /** The constructor: each option falls back to its default when absent. */
  function New(maxAttempts: Option<int>, windowMs: Option<int>): (l: Limiter)
    ensures l.attempts == map[]
    ensures maxAttempts.None? ==> l.maxAttempts == 5
    ensures windowMs.None? ==> l.windowMs == 900000
    ensures maxAttempts.Some? ==> l.maxAttempts == maxAttempts.value
    ensures windowMs.Some? ==> l.windowMs == windowMs.value
  {
    Limiter(maxAttempts.GetOr(DefaultMaxAttempts), windowMs.GetOr(DefaultWindowMs), map[])
  }

  /** The window of `e` is over at `now` (strictly more than `windowMs`
      after its first failure). */
  predicate Expired(l: Limiter, e: Entry, now: int) {
    now - e.firstAttempt > l.windowMs
  }

  function IsBlocked(l: Limiter, ip: string, now: int): (r: Check)
    ensures ip !in l.attempts ==> !r.blocked && r.limiter == l
    ensures ip in l.attempts && Expired(l, l.attempts[ip], now) ==>
              !r.blocked && r.limiter == l.(attempts := l.attempts - {ip})
    ensures ip in l.attempts && !Expired(l, l.attempts[ip], now) ==>
              r.blocked == (l.attempts[ip].count >= l.maxAttempts) && r.limiter == l
    ensures r.limiter.maxAttempts == l.maxAttempts && r.limiter.windowMs == l.windowMs
  {
    if ip !in l.attempts then Check(false, l)
    else
      var e := l.attempts[ip];
      if Expired(l, e, now) then Check(false, l.(attempts := l.attempts - {ip}))
      else Check(e.count >= l.maxAttempts, l)
  }

  function RecordFailure(l: Limiter, ip: string, now: int): (r: Limiter)
    ensures ip in r.attempts
    ensures ip !in l.attempts || Expired(l, l.attempts[ip], now) ==>
              r.attempts[ip] == Entry(1, now)
    ensures ip in l.attempts && !Expired(l, l.attempts[ip], now) ==>
              r.attempts[ip] == l.attempts[ip].(count := l.attempts[ip].count + 1)
    ensures forall other :: other != ip ==>
              (other in r.attempts <==> other in l.attempts) &&
              (other in l.attempts ==> r.attempts[other] == l.attempts[other])
    ensures r.maxAttempts == l.maxAttempts && r.windowMs == l.windowMs
  {
    if ip !in l.attempts || Expired(l, l.attempts[ip], now) then
      l.(attempts := l.attempts[ip := Entry(1, now)])
    else
      var e := l.attempts[ip];
      l.(attempts := l.attempts[ip := Entry(e.count + 1, e.firstAttempt)])
  }

  function RecordSuccess(l: Limiter, ip: string): (r: Limiter)
    ensures ip !in r.attempts
    ensures forall other :: other != ip ==>
              (other in r.attempts <==> other in l.attempts) &&
              (other in l.attempts ==> r.attempts[other] == l.attempts[other])
    ensures r.maxAttempts == l.maxAttempts && r.windowMs == l.windowMs
  {
    l.(attempts := l.attempts - {ip})
  }

  /** The periodic sweep (`_cleanup`). */
  function Cleanup(l: Limiter, now: int): (r: Limiter)
    ensures forall ip :: ip in r.attempts <==> ip in l.attempts && !Expired(l, l.attempts[ip], now)
    ensures forall ip :: ip in r.attempts ==> r.attempts[ip] == l.attempts[ip]
    ensures r.maxAttempts == l.maxAttempts && r.windowMs == l.windowMs
  {
    l.(attempts := map ip | ip in l.attempts && !Expired(l, l.attempts[ip], now) :: l.attempts[ip])
  }

  /** The sweep is only an optimisation: at the same instant, every address
      is blocked after the sweep exactly when it was blocked before it. */
  lemma CleanupPreservesVerdicts(l: Limiter, now: int, ip: string)
    ensures IsBlocked(Cleanup(l, now), ip, now).blocked == IsBlocked(l, ip, now).blocked
  {
  }

  /** Asking twice in a row gives the same answer: the lazy deletion of an
      expired entry does not change the verdict. */
  lemma IsBlockedStable(l: Limiter, ip: string, now: int)
    ensures IsBlocked(IsBlocked(l, ip, now).limiter, ip, now).blocked == IsBlocked(l, ip, now).blocked
  {
  }

  /** A run of failures of one address, at the given times. */
  function RecordFailures(l: Limiter, ip: string, times: seq<int>): Limiter
  {
    if |times| == 0 then l
    else RecordFailure(RecordFailures(l, ip, times[..|times| - 1]), ip, times[|times| - 1])
  }

  /** Times that all fall within one window opened by the first of them. */
  predicate WithinOneWindow(times: seq<int>, windowMs: int) {
    forall i :: 0 <= i < |times| ==> times[0] <= times[i] && times[i] - times[0] <= windowMs
  }

  /** Failures inside one window accumulate on a single entry that keeps
      the time of the first of them. */
  lemma {:induction false} FailuresAccumulate(l: Limiter, ip: string, times: seq<int>)
    requires ip !in l.attempts
    requires |times| >= 1
    requires WithinOneWindow(times, l.windowMs)
    ensures ip in RecordFailures(l, ip, times).attempts
    ensures RecordFailures(l, ip, times).attempts[ip] == Entry(|times|, times[0])
    ensures RecordFailures(l, ip, times).windowMs == l.windowMs
    ensures RecordFailures(l, ip, times).maxAttempts == l.maxAttempts
  {
    if |times| > 1 {
      var prefix := times[..|times| - 1];
      assert WithinOneWindow(prefix, l.windowMs);
      FailuresAccumulate(l, ip, prefix);
    }
  }

  /** After `maxAttempts` failures inside one window the address is blocked
      for the rest of that window. */
  lemma BlockedAfterMaxFailures(l: Limiter, ip: string, times: seq<int>, now: int)
    requires ip !in l.attempts
    requires |times| >= 1 && |times| >= l.maxAttempts
    requires WithinOneWindow(times, l.windowMs)
    requires now - times[0] <= l.windowMs
    ensures IsBlocked(RecordFailures(l, ip, times), ip, now).blocked
  {
    FailuresAccumulate(l, ip, times);
  }

  /** Once the window of the first failure has elapsed the address is no
      longer blocked, without any `recordSuccess`. */
  lemma UnblockedAfterWindow(l: Limiter, ip: string, times: seq<int>, now: int)
    requires ip !in l.attempts
    requires |times| >= 1
    requires WithinOneWindow(times, l.windowMs)
    requires now > times[0] + l.windowMs
    ensures !IsBlocked(RecordFailures(l, ip, times), ip, now).blocked
  {
    FailuresAccumulate(l, ip, times);
  }

  /** Fewer than `maxAttempts` failures in the window never block. */
  lemma NotBlockedBelowMax(l: Limiter, ip: string, times: seq<int>, now: int)
    requires ip !in l.attempts
    requires 1 <= |times| < l.maxAttempts
    requires WithinOneWindow(times, l.windowMs)
    ensures !IsBlocked(RecordFailures(l, ip, times), ip, now).blocked
  {
    FailuresAccumulate(l, ip, times);
  }

  /** A success forgives: the address is not blocked afterwards, and the
      verdicts for every other address are unchanged. */
  lemma SuccessForgives(l: Limiter, ip: string, other: string, now: int)
    requires other != ip
    ensures !IsBlocked(RecordSuccess(l, ip), ip, now).blocked
    ensures IsBlocked(RecordSuccess(l, ip), other, now).blocked == IsBlocked(l, other, now).blocked
  {
  }
}

/**
The circuit breaker and the retry loop of the resilient client
(app/connectors/http_client.py, `CircuitBreaker`, `ResilientClient._send`).

The network and the clock are parameters: `world(n)` is what attempt `n` meets and `clock(n)`
is the time its failure, if it is one, is recorded.
*/
module HttpClient {

  // ---------- the breaker on values ----------

  /** `openedAt` is 0.0 when the breaker has not been opened, as in the source. */
  datatype Status = Status(failures: int, openedAt: real)

  const CLEARED := Status(0, 0.0)

  function Failed(threshold: int, s: Status, now: real): Status {
    Status(s.failures + 1, if s.failures + 1 >= threshold && s.openedAt == 0.0 then now else s.openedAt)
  }

  predicate Allows(threshold: int, cooldown: real, s: Status, now: real) {
    s.failures < threshold || now - s.openedAt >= cooldown
  }

  /** What a breaker has been told, newest last; every failure carries its time. */
  datatype Trace = Start | Success(earlier: Trace) | Failure(earlier: Trace, at: real)

  function Replay(threshold: int, trace: Trace): Status {
    match trace
    case Start => CLEARED
    case Success(_) => CLEARED
    case Failure(earlier, at) => Failed(threshold, Replay(threshold, earlier), at)
  }

  ghost predicate PositiveTimes(trace: Trace) {
    match trace
    case Start => true
    case Success(earlier) => PositiveTimes(earlier)
    case Failure(earlier, at) => at > 0.0 && PositiveTimes(earlier)
  }

  // ---------- the breaker in place ----------

  class CircuitBreaker {
    const threshold: int
    const cooldown: real
    var failures: int
    var openedAt: real
    ghost var trace: Trace

    constructor (threshold: int, cooldown: real)
      ensures this.threshold == threshold && this.cooldown == cooldown && trace == Start && Valid()
    {
      this.threshold := threshold;
      this.cooldown := cooldown;
      failures := 0;
      openedAt := 0.0;
      trace := Start;
    }

    function Current(): Status
      reads this
    {
      Status(failures, openedAt)
    }

    ghost predicate Valid()
      reads this
    {
      Current() == Replay(threshold, trace)
    }

    predicate Allow(now: real)
      reads this
      ensures Allow(now) == Allows(threshold, cooldown, Current(), now)
    {
      if failures < threshold then true else now - openedAt >= cooldown
    }

    /** `is_open` is spelled out separately in the source; it is the exact opposite of `allow`. */
    predicate IsOpen(now: real)
      reads this
      ensures IsOpen(now) == !Allow(now)
    {
      failures >= threshold && now - openedAt < cooldown
    }

    method RecordSuccess()
      requires Valid()
      modifies this
      ensures Valid() && trace == Success(old(trace))
    {
      failures := 0;
      openedAt := 0.0;
      trace := Success(trace);
    }

    method RecordFailure(now: real)
      requires Valid()
      modifies this
      ensures Valid() && trace == Failure(old(trace), now)
    {
      failures := failures + 1;
      if failures >= threshold && openedAt == 0.0 {
        openedAt := now;
      }
      trace := Failure(trace, now);
    }
  }

  // ---------- what a breaker's state means ----------

  /** The times of the failures since the last success, oldest first. */
  function Streak(trace: Trace): seq<real> {
    match trace
    case Start => []
    case Success(_) => []
    case Failure(earlier, at) => Streak(earlier) + [at]
  }

  function Max(a: int, b: int): int {
    if a >= b then a else b
  }

  /** The failure that opened the breaker: the one that first reached the threshold. */
  function OpeningTime(threshold: int, streak: seq<real>): real {
    var k := Max(threshold, 1);
    if |streak| >= k then streak[k - 1] else 0.0
  }

  lemma {:induction false} StreakPositive(trace: Trace, i: nat)
    requires PositiveTimes(trace) && i < |Streak(trace)|
    ensures Streak(trace)[i] > 0.0
  {
    if i < |Streak(trace)| - 1 { StreakPositive(trace.earlier, i); }
  }

  /** After any history the breaker counts the current streak and remembers when the streak reached the threshold. */
  lemma {:induction false} BreakerRemembersStreak(threshold: int, trace: Trace)
    requires PositiveTimes(trace)
    ensures Replay(threshold, trace) == Status(|Streak(trace)|, OpeningTime(threshold, Streak(trace)))
  {
    if trace.Failure? {
      BreakerRemembersStreak(threshold, trace.earlier);
      var k := Max(threshold, 1);
      if |Streak(trace.earlier)| >= k { StreakPositive(trace.earlier, k - 1); }
    }
  }

  /**
  The opening time is set exactly while the failures are at or over the threshold, unless the
  threshold is not positive and nothing has failed since the last success: then it is not set,
  although no failures already reach the threshold.
  */
  lemma {:induction false} OpenedIffThreshold(threshold: int, trace: Trace)
    requires PositiveTimes(trace)
    ensures (Replay(threshold, trace).openedAt != 0.0 <==> Replay(threshold, trace).failures >= threshold)
            <==> (threshold >= 1 || Streak(trace) != [])
  {
    BreakerRemembersStreak(threshold, trace);
    var k := Max(threshold, 1);
    if |Streak(trace)| >= k { StreakPositive(trace, k - 1); }
  }

  /** `later` continues `trace` with failures only. */
  ghost predicate OnlyFailures(trace: Trace, later: Trace) {
    later == trace || (later.Failure? && OnlyFailures(trace, later.earlier))
  }

  lemma {:induction false} StreakGrows(trace: Trace, later: Trace)
    requires OnlyFailures(trace, later)
    ensures Streak(trace) <= Streak(later)
  {
    if later != trace { StreakGrows(trace, later.earlier); }
  }

  /**
  Failures after the one that opened the breaker do not extend the cooldown: until the next
  success it refuses exactly the calls made less than one cooldown after the opening, so a
  failed probe does not open it again.
  */
  lemma {:induction false} CooldownIsNotExtended(threshold: int, cooldown: real, trace: Trace, later: Trace, now: real)
    requires PositiveTimes(later)
    requires OnlyFailures(trace, later) && |Streak(trace)| >= Max(threshold, 1)
    ensures Allows(threshold, cooldown, Replay(threshold, later), now)
            <==> now >= Streak(trace)[Max(threshold, 1) - 1] + cooldown
  {
    BreakerRemembersStreak(threshold, later);
    StreakGrows(trace, later);
  }

  /** Below the threshold every call is allowed. */
  lemma {:induction false} ShortStreakAllows(threshold: int, cooldown: real, trace: Trace, now: real)
    requires PositiveTimes(trace) && |Streak(trace)| < threshold
    ensures Allows(threshold, cooldown, Replay(threshold, trace), now)
  {
    BreakerRemembersStreak(threshold, trace);
  }

  // ---------- one call: the retry loop ----------

  datatype Reply = NetworkError | Response(status: int, body: string)

  datatype Reason = MethodBlocked | Traversal | InternalHost | CircuitOpen | Network | Http(status: int) | Exhausted

  datatype Outcome = Returned(reply: Reply) | Absent | Raised(reason: Reason)

  /** What is asked, as far as the checks before the first attempt look at it. */
  datatype Request = Request(readOnly: bool, traversal: bool, internalHost: bool, notFoundOk: bool)

  const RETRYABLE: set<int> := {429, 500, 502, 503, 504}

  predicate Transient(reply: Reply) {
    reply.NetworkError? || reply.status in RETRYABLE
  }

  /** What the last attempt's reply becomes. */
  function Conclusion(reply: Reply, notFoundOk: bool): Outcome {
    match reply
    case NetworkError => Raised(Network)
    case Response(status, _) =>
      if status == 404 && notFoundOk then Absent
      else if status >= 400 then Raised(Http(status))
      else Returned(reply)
  }

  /** None of the checks before the first attempt stops the request. */
  predicate Passes(request: Request, open: bool) {
    request.readOnly && !request.traversal && !request.internalHost && !open
  }

  function Refusal(request: Request, open: bool): Outcome
    requires !Passes(request, open)
  {
    Raised(if !request.readOnly then MethodBlocked
           else if request.traversal then Traversal
           else if request.internalHost then InternalHost
           else CircuitOpen)
  }

  /** The replies after which another attempt is made, while there is one left: no answer, or one of five statuses. */
  predicate TriedAgain(reply: Reply) {
    match reply
    case NetworkError => true
    case Response(status, _) => status == 429 || status == 500 || status == 502 || status == 503 || status == 504
  }

  /** Only a status below 400 is returned, an expected 404 is an absence, and anything else raises what it was. */
  predicate Concludes(outcome: Outcome, last: Reply, notFoundOk: bool) {
    && (outcome.Returned? <==> last.Response? && last.status < 400)
    && (outcome.Returned? ==> outcome.reply == last)
    && (outcome.Absent? <==> last.Response? && last.status == 404 && notFoundOk)
    && (outcome.Raised? ==> outcome.reason == if last.NetworkError? then Network else Http(last.status))
  }

  /** `n` failures recorded in turn at the times the clock shows. */
  function Failing(trace: Trace, clock: nat -> real, n: nat): Trace {
    if n == 0 then trace else Failure(Failing(trace, clock, n - 1), clock(n - 1))
  }

  class ResilientClient {
    const maxRetries: int
    const breaker: CircuitBreaker

    constructor (maxRetries: int, breaker: CircuitBreaker)
      ensures this.maxRetries == maxRetries && this.breaker == breaker
    {
      this.maxRetries := maxRetries;
      this.breaker := breaker;
    }

    /**
    One call. It makes attempts while replies are transient and retries remain, and tells the
    breaker of each attempt exactly once: all but the last are failures, and the last is a
    success exactly when the call returns.
    */
    method Send(request: Request, start: real, world: nat -> Reply, clock: nat -> real)
      returns (outcome: Outcome, attempts: nat)
      requires breaker.Valid()
      modifies breaker
      ensures breaker.Valid()
      ensures !Passes(request, old(breaker.IsOpen(start))) ==>
        attempts == 0 && breaker.trace == old(breaker.trace)
        && outcome == Refusal(request, old(breaker.IsOpen(start)))
      ensures outcome == Raised(CircuitOpen) ==> old(breaker.IsOpen(start))
      ensures Passes(request, old(breaker.IsOpen(start))) && maxRetries >= 0 ==>
        && 1 <= attempts <= maxRetries + 1
        && (forall n :: 0 <= n < attempts - 1 ==> Transient(world(n)))
        && (attempts == maxRetries + 1 || !Transient(world(attempts - 1)))
        && outcome == Conclusion(world(attempts - 1), request.notFoundOk)
        && breaker.trace ==
             (if outcome.Raised? then Failing(old(breaker.trace), clock, attempts)
              else Success(Failing(old(breaker.trace), clock, attempts - 1)))
      ensures outcome == Raised(Exhausted) <==> Passes(request, old(breaker.IsOpen(start))) && maxRetries < 0
      ensures outcome == Raised(Exhausted) ==> attempts == 0 && breaker.trace == Failing(old(breaker.trace), clock, 1)
      ensures !request.readOnly ==> outcome == Raised(MethodBlocked)
      ensures request.readOnly && request.traversal ==> outcome == Raised(Traversal)
      ensures request.readOnly && !request.traversal && request.internalHost ==> outcome == Raised(InternalHost)
      ensures attempts >= 1 ==> Concludes(outcome, world(attempts - 1), request.notFoundOk)
      ensures outcome.Returned? || outcome.Absent? ==> attempts >= 1
      ensures forall n :: 0 <= n < attempts - 1 ==> TriedAgain(world(n))
      ensures attempts >= 1 && TriedAgain(world(attempts - 1)) ==> attempts == maxRetries + 1
    {
      attempts := 0;
      if !request.readOnly {
        return Raised(MethodBlocked), attempts;
      }
      if request.traversal {
        return Raised(Traversal), attempts;
      }
      if request.internalHost {
        return Raised(InternalHost), attempts;
      }
      if breaker.IsOpen(start) {
        return Raised(CircuitOpen), attempts;
      }
      while attempts < maxRetries + 1
        invariant breaker.Valid()
        invariant attempts == 0 || attempts <= maxRetries
        invariant forall n :: 0 <= n < attempts ==> Transient(world(n))
        invariant breaker.trace == Failing(old(breaker.trace), clock, attempts)
        decreases maxRetries + 1 - attempts
      {
        var attempt := attempts;
        var reply := world(attempt);
        attempts := attempts + 1;
        if reply.NetworkError? {
          breaker.RecordFailure(clock(attempt));
          if attempt < maxRetries {
            continue;
          }
          return Raised(Network), attempts;
        }
        if reply.status in RETRYABLE && attempt < maxRetries {
          breaker.RecordFailure(clock(attempt));
          continue;
        }
        if reply.status == 404 && request.notFoundOk {
          breaker.RecordSuccess();
          return Absent, attempts;
        }
        if reply.status >= 400 {
          breaker.RecordFailure(clock(attempt));
          return Raised(Http(reply.status)), attempts;
        }
        breaker.RecordSuccess();
        return Returned(reply), attempts;
      }
      breaker.RecordFailure(clock(0));
      return Raised(Exhausted), attempts;
    }
  }

  // ---------- what a call does to the breaker ----------

  lemma {:induction false} FailingStreak(trace: Trace, clock: nat -> real, n: nat)
    requires PositiveTimes(trace) && forall k :: clock(k) > 0.0
    ensures PositiveTimes(Failing(trace, clock, n))
    ensures |Streak(Failing(trace, clock, n))| == |Streak(trace)| + n
    ensures OnlyFailures(trace, Failing(trace, clock, n))
  {
    if n > 0 { FailingStreak(trace, clock, n - 1); }
  }

  /** A call that raises adds one failure per attempt, and one that returns leaves the count at zero. */
  lemma {:induction false} CallCountsEveryAttempt(threshold: int, trace: Trace, clock: nat -> real, attempts: nat)
    requires PositiveTimes(trace) && forall k :: clock(k) > 0.0
    ensures Replay(threshold, Failing(trace, clock, attempts)).failures == Replay(threshold, trace).failures + attempts
    ensures attempts > 0 ==> Replay(threshold, Success(Failing(trace, clock, attempts - 1))) == CLEARED
  {
    FailingStreak(trace, clock, attempts);
    BreakerRemembersStreak(threshold, trace);
    BreakerRemembersStreak(threshold, Failing(trace, clock, attempts));
  }

  /**
  A call that is let through after the cooldown and raises does not open the breaker again,
  however many attempts it made.
  */
  lemma {:induction false} FailedProbeLeavesItCooled(threshold: int, cooldown: real, trace: Trace, clock: nat -> real,
                                                     attempts: nat, start: real, later: real)
    requires PositiveTimes(trace) && (forall k :: clock(k) > 0.0)
    requires Replay(threshold, trace).openedAt != 0.0
    requires Allows(threshold, cooldown, Replay(threshold, trace), start) && start <= later
    ensures Allows(threshold, cooldown, Replay(threshold, Failing(trace, clock, attempts)), later)
  {
    FailingStreak(trace, clock, attempts);
    BreakerRemembersStreak(threshold, trace);
    CooldownIsNotExtended(threshold, cooldown, trace, trace, start);
    CooldownIsNotExtended(threshold, cooldown, trace, Failing(trace, clock, attempts), later);
  }
}

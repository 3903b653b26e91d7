/**
The sliding-window rate limiter (app/hardening.py, `SlidingWindowLimiter`): a dictionary of
queues of admission times, pruned in place by `check` and by a background `sweep`, proved to
decide by the log of everything it ever admitted.
*/
module Limiter {

  type Hits = map<string, seq<real>>

  /** The answer, or the IndexError of looking at the front of an empty queue. */
  datatype Reply = Reply(allowed: bool, remaining: int, retry: real) | IndexError

  function QueueOf(hits: Hits, key: string): seq<real> {
    if key in hits then hits[key] else []
  }

  /** What is left of a queue once every time before `cutoff` has been popped from its front. */
  function Prune(q: seq<real>, cutoff: real): seq<real> {
    if q != [] && q[0] < cutoff then Prune(q[1..], cutoff) else q
  }

  /** The table after one `check`, and the answer it gave. */
  function Checked(max: int, window: real, hits: Hits, key: string, now: real): (r: (Hits, Reply))
    ensures max >= 1 ==> r.1.Reply?
  {
    var q := Prune(QueueOf(hits, key), now - window);
    if |q| < max then
      (hits[key := q + [now]], Reply(true, max - |q| - 1, 0.0))
    else if q == [] then
      (hits[key := q], IndexError)
    else
      (hits[key := q], Reply(false, 0, if window - (now - q[0]) > 0.0 then window - (now - q[0]) else 0.0))
  }

  /** The table after one `sweep`. */
  function Swept(window: real, hits: Hits, maxKeys: int, now: real): Hits {
    if |hits| <= maxKeys then hits
    else map k | k in hits && Prune(hits[k], now - window) != [] :: Prune(hits[k], now - window)
  }

  class SlidingWindowLimiter {
    const max: int
    const window: real
    var hits: Hits

    constructor (max: int, window: real)
      ensures this.max == max && this.window == window && hits == map[]
    {
      this.max := max;
      this.window := window;
      hits := map[];
    }

    method Check(key: string, now: real) returns (reply: Reply)
      modifies this
      ensures (hits, reply) == Checked(max, window, old(hits), key, now)
    {
      var q := if key in hits then hits[key] else [];
      var cutoff := now - window;
      while q != [] && q[0] < cutoff
        invariant Prune(q, cutoff) == Prune(QueueOf(old(hits), key), cutoff)
      {
        q := q[1..];
      }
      if |q| >= max {
        hits := hits[key := q];
        if q == [] {
          return IndexError;
        }
        var retry := window - (now - q[0]);
        return Reply(false, 0, if retry > 0.0 then retry else 0.0);
      }
      q := q + [now];
      hits := hits[key := q];
      return Reply(true, max - |q|, 0.0);
    }

    method Sweep(maxKeys: int, now: real)
      modifies this
      ensures hits == Swept(window, old(hits), maxKeys, now)
    {
      if |hits| <= maxKeys {
        return;
      }
      var cutoff := now - window;
      var todo := hits.Keys;
      while todo != {}
        invariant todo <= old(hits).Keys
        invariant forall k :: k in hits <==> k in old(hits) && (k in todo || Prune(old(hits)[k], cutoff) != [])
        invariant forall k :: k in hits ==> hits[k] == if k in todo then old(hits)[k] else Prune(old(hits)[k], cutoff)
        decreases |todo|
      {
        var k :| k in todo;
        var q := hits[k];
        while q != [] && q[0] < cutoff
          invariant Prune(q, cutoff) == Prune(old(hits)[k], cutoff)
        {
          q := q[1..];
        }
        todo := todo - {k};
        hits := if q == [] then hits - {k} else hits[k := q];
      }
    }
  }

  // ---------- the limiter as a whole: runs, and the log of admissions ----------

  datatype Event = Check(key: string, now: real) | Sweep(maxKeys: int, now: real)

  /** A run, newest event last. */
  datatype Trace = Start | Then(earlier: Trace, event: Event)

  /** The clock never goes back along the run. */
  predicate InOrder(trace: Trace) {
    trace.Then? ==> InOrder(trace.earlier) && (trace.earlier.Then? ==> trace.earlier.event.now <= trace.event.now)
  }

  /** The table the limiter holds after a run. */
  function HitsAfter(max: int, window: real, trace: Trace): Hits {
    match trace
    case Start => map[]
    case Then(earlier, Check(key, now)) => Checked(max, window, HitsAfter(max, window, earlier), key, now).0
    case Then(earlier, Sweep(maxKeys, now)) => Swept(window, HitsAfter(max, window, earlier), maxKeys, now)
  }

  /** Every admission ever made, newest first. */
  datatype Log = Empty | Admitted(key: string, at: real, earlier: Log)

  /** The admissions of `key` in the closed interval [from, to], oldest first. */
  function Within(log: Log, key: string, from: real, to: real): seq<real> {
    match log
    case Empty => []
    case Admitted(k, at, earlier) =>
      Within(earlier, key, from, to) + if k == key && from <= at <= to then [at] else []
  }

  /** The intended answer: a request is admitted iff fewer than `max` are in the closed window before it. */
  function Judge(max: int, window: real, log: Log, key: string, now: real): (r: Reply)
    requires max >= 1
    ensures r.Reply?
  {
    var recent := Within(log, key, now - window, now);
    if |recent| < max then Reply(true, max - |recent| - 1, 0.0)
    else Reply(false, 0, recent[0] + window - now)
  }

  /** What the intended limiter has admitted after a run; it does not look at sweeps. */
  function LogAfter(max: int, window: real, trace: Trace): Log
    requires max >= 1
  {
    match trace
    case Start => Empty
    case Then(earlier, Check(key, now)) =>
      var log := LogAfter(max, window, earlier);
      if Judge(max, window, log, key, now).allowed then Admitted(key, now, log) else log
    case Then(earlier, Sweep(_, _)) => LogAfter(max, window, earlier)
  }

  // ---------- pruning ----------

  ghost predicate AtMost(q: seq<real>, t: real) {
    forall i :: 0 <= i < |q| ==> q[i] <= t
  }

  lemma {:induction false} PruneTwice(q: seq<real>, c: real, d: real)
    requires c <= d
    ensures Prune(Prune(q, c), d) == Prune(q, d)
  {
    if q != [] && q[0] < c { PruneTwice(q[1..], c, d); }
  }

  lemma {:induction false} PruneAll(q: seq<real>, t: real, c: real)
    requires AtMost(q, t) && t < c
    ensures Prune(q, c) == []
  {
    if q != [] { PruneAll(q[1..], t, c); }
  }

  lemma {:induction false} PruneAppend(q: seq<real>, t: real, c: real)
    requires AtMost(q, t)
    ensures Prune(q + [t], c) == if c <= t then Prune(q, c) + [t] else []
  {
    if t < c {
      assert AtMost(q + [t], t);
      PruneAll(q + [t], t, c);
    } else if q != [] {
      assert (q + [t])[1..] == q[1..] + [t];
      PruneAppend(q[1..], t, c);
    }
  }

  lemma {:induction false} PruneAtMost(q: seq<real>, t: real, c: real)
    requires AtMost(q, t)
    ensures AtMost(Prune(q, c), t)
  {
    if q != [] && q[0] < c { PruneAtMost(q[1..], t, c); }
  }

  // ---------- the log ----------

  ghost predicate LogAtMost(log: Log, t: real) {
    log.Admitted? ==> log.at <= t && LogAtMost(log.earlier, t)
  }

  lemma {:induction false} LogLater(log: Log, s: real, t: real)
    requires LogAtMost(log, s) && s <= t
    ensures LogAtMost(log, t)
  {
    if log.Admitted? { LogLater(log.earlier, s, t); }
  }

  /** Past the newest admission the upper end of an interval does not matter. */
  lemma {:induction false} UpperEnd(log: Log, key: string, from: real, s: real, t: real)
    requires LogAtMost(log, s) && s <= t
    ensures Within(log, key, from, t) == Within(log, key, from, s)
  {
    if log.Admitted? { UpperEnd(log.earlier, key, from, s, t); }
  }

  lemma {:induction false} WithinLarger(log: Log, key: string, from: real, to: real, from': real, to': real)
    requires from' <= from && to <= to'
    ensures |Within(log, key, from, to)| <= |Within(log, key, from', to')|
  {
    if log.Admitted? { WithinLarger(log.earlier, key, from, to, from', to'); }
  }

  lemma {:induction false} WithinBounds(log: Log, key: string, from: real, to: real)
    ensures forall i :: 0 <= i < |Within(log, key, from, to)| ==> from <= Within(log, key, from, to)[i] <= to
  {
    if log.Admitted? { WithinBounds(log.earlier, key, from, to); }
  }

  /** Moving the lower end past the oldest admission leaves it out. */
  lemma {:induction false} WithinDropsOldest(log: Log, key: string, from: real, to: real, from': real)
    requires Within(log, key, from, to) != [] && from <= from' && Within(log, key, from, to)[0] < from'
    ensures |Within(log, key, from', to)| < |Within(log, key, from, to)|
  {
    if Within(log.earlier, key, from, to) != [] {
      assert Within(log, key, from, to)[0] == Within(log.earlier, key, from, to)[0];
      WithinDropsOldest(log.earlier, key, from, to, from');
    } else {
      WithinLarger(log.earlier, key, from', to, from, to);
    }
  }

  /** The log is newest first. */
  ghost predicate NewestFirst(log: Log) {
    log.Admitted? ==> LogAtMost(log.earlier, log.at) && NewestFirst(log.earlier)
  }

  /** Moving the lower end no further than the oldest admission keeps them all. */
  lemma {:induction false} WithinKeepsOldest(log: Log, key: string, from: real, to: real, from': real)
    requires NewestFirst(log) && Within(log, key, from, to) != []
    requires from <= from' <= Within(log, key, from, to)[0]
    ensures Within(log, key, from', to) == Within(log, key, from, to)
  {
    var before := Within(log.earlier, key, from, to);
    if before != [] {
      assert Within(log, key, from, to)[0] == before[0];
      WithinKeepsOldest(log.earlier, key, from, to, from');
      WithinBounds(log.earlier, key, from, to);
      if log.at <= to {
        UpperEnd(log.earlier, key, from, log.at, to);
        WithinBounds(log.earlier, key, from, log.at);
      }
    } else {
      WithinLarger(log.earlier, key, from', to, from, to);
    }
  }

  lemma {:induction false} LogNewestFirst(max: int, window: real, trace: Trace)
    requires max >= 1 && InOrder(trace)
    ensures NewestFirst(LogAfter(max, window, trace))
  {
    if trace.Then? {
      LogNewestFirst(max, window, trace.earlier);
      LogInOrder(max, window, trace.earlier, trace.event.now);
    }
  }

  lemma {:induction false} LogInOrder(max: int, window: real, trace: Trace, t: real)
    requires max >= 1 && InOrder(trace) && (trace.Then? ==> trace.event.now <= t)
    ensures LogAtMost(LogAfter(max, window, trace), t)
  {
    if trace.Then? {
      LogInOrder(max, window, trace.earlier, trace.event.now);
      LogLater(LogAfter(max, window, trace.earlier), trace.event.now, t);
    }
  }

  // ---------- the table agrees with the log ----------

  /** A queue, pruned at any cutoff that can still matter, is what the log says. */
  ghost predicate QueueAgrees(q: seq<real>, log: Log, key: string, window: real, now: real) {
    AtMost(q, now) && forall c :: now - window <= c ==> Prune(q, c) == Within(log, key, c, now)
  }

  ghost predicate Agree(hits: Hits, log: Log, window: real, now: real) {
    forall k :: QueueAgrees(QueueOf(hits, k), log, k, window, now)
  }

  lemma {:induction false} AgreeLater(hits: Hits, log: Log, window: real, s: real, t: real)
    requires Agree(hits, log, window, s) && LogAtMost(log, s) && s <= t
    ensures Agree(hits, log, window, t)
  {
    forall k
      ensures QueueAgrees(QueueOf(hits, k), log, k, window, t)
    {
      assert QueueAgrees(QueueOf(hits, k), log, k, window, s);
      forall c | t - window <= c
        ensures Prune(QueueOf(hits, k), c) == Within(log, k, c, t)
      {
        UpperEnd(log, k, c, s, t);
      }
    }
  }

  lemma {:induction false} CheckAnswers(max: int, window: real, hits: Hits, log: Log, key: string, now: real)
    requires max >= 1 && Agree(hits, log, window, now)
    ensures Checked(max, window, hits, key, now).1 == Judge(max, window, log, key, now)
  {
    assert QueueAgrees(QueueOf(hits, key), log, key, window, now);
    assert Prune(QueueOf(hits, key), now - window) == Within(log, key, now - window, now);
    WithinBounds(log, key, now - window, now);
  }

  /** What a check leaves of the checked key's queue. */
  function CheckedQueue(q: seq<real>, window: real, now: real, allowed: bool): seq<real> {
    Prune(q, now - window) + if allowed then [now] else []
  }

  function WithAdmission(log: Log, key: string, now: real, allowed: bool): Log {
    if allowed then Admitted(key, now, log) else log
  }

  lemma {:induction false} OwnQueue(window: real, q: seq<real>, log: Log, key: string, now: real, allowed: bool)
    requires QueueAgrees(q, log, key, window, now)
    ensures QueueAgrees(CheckedQueue(q, window, now, allowed), WithAdmission(log, key, now, allowed), key, window, now)
  {
    var p := Prune(q, now - window);
    PruneAtMost(q, now, now - window);
    assert p + [] == p;
    forall c | now - window <= c
      ensures Prune(CheckedQueue(q, window, now, allowed), c)
          == Within(WithAdmission(log, key, now, allowed), key, c, now)
    {
      PruneTwice(q, now - window, c);
      PruneAppend(p, now, c);
      if now < c { PruneAll(p, now, c); }
    }
  }

  lemma {:induction false} OtherQueue(window: real,
      q: seq<real>, log: Log, key: string, now: real, allowed: bool, k: string)
    requires QueueAgrees(q, log, k, window, now) && k != key
    ensures QueueAgrees(q, WithAdmission(log, key, now, allowed), k, window, now)
  {
  }

  lemma {:induction false} CheckAgrees(max: int, window: real, hits: Hits, log: Log, key: string, now: real)
    requires max >= 1 && Agree(hits, log, window, now)
    ensures
      var log' := if Judge(max, window, log, key, now).allowed then Admitted(key, now, log) else log;
      Agree(Checked(max, window, hits, key, now).0, log', window, now)
  {
    CheckAnswers(max, window, hits, log, key, now);
    var allowed := Judge(max, window, log, key, now).allowed;
    var hits', q := Checked(max, window, hits, key, now).0, CheckedQueue(QueueOf(hits, key), window, now, allowed);
    assert Prune(QueueOf(hits, key), now - window) + [] == Prune(QueueOf(hits, key), now - window);
    assert hits' == hits[key := q];
    forall k
      ensures QueueAgrees(QueueOf(hits', k), WithAdmission(log, key, now, allowed), k, window, now)
    {
      assert QueueAgrees(QueueOf(hits, k), log, k, window, now);
      if k == key {
        OwnQueue(window, QueueOf(hits, key), log, key, now, allowed);
      } else {
        OtherQueue(window, QueueOf(hits, k), log, key, now, allowed, k);
      }
    }
  }

  lemma {:induction false} SweptQueue(window: real, q: seq<real>, log: Log, key: string, now: real)
    requires QueueAgrees(q, log, key, window, now)
    ensures QueueAgrees(Prune(q, now - window), log, key, window, now)
  {
    PruneAtMost(q, now, now - window);
    forall c | now - window <= c
      ensures Prune(Prune(q, now - window), c) == Within(log, key, c, now)
    {
      PruneTwice(q, now - window, c);
    }
  }

  lemma {:induction false} SweepAgrees(window: real, hits: Hits, log: Log, maxKeys: int, now: real)
    requires Agree(hits, log, window, now)
    ensures Agree(Swept(window, hits, maxKeys, now), log, window, now)
  {
    var hits' := Swept(window, hits, maxKeys, now);
    if |hits| > maxKeys {
      forall k
        ensures QueueAgrees(QueueOf(hits', k), log, k, window, now)
      {
        assert QueueOf(hits', k) == Prune(QueueOf(hits, k), now - window);
        SweptQueue(window, QueueOf(hits, k), log, k, now);
      }
    }
  }

  lemma {:induction false} RunAgrees(max: int, window: real, trace: Trace, t: real)
    requires max >= 1 && InOrder(trace) && (trace.Then? ==> trace.event.now <= t)
    ensures Agree(HitsAfter(max, window, trace), LogAfter(max, window, trace), window, t)
  {
    if trace.Then? {
      var now := trace.event.now;
      RunAgrees(max, window, trace.earlier, now);
      LogInOrder(max, window, trace.earlier, now);
      LogInOrder(max, window, trace, now);
      var hits, log := HitsAfter(max, window, trace.earlier), LogAfter(max, window, trace.earlier);
      if trace.event.Check? {
        CheckAgrees(max, window, hits, log, trace.event.key, now);
      } else {
        SweepAgrees(window, hits, log, trace.event.maxKeys, now);
      }
      AgreeLater(HitsAfter(max, window, trace), LogAfter(max, window, trace), window, now, t);
    }
  }

  // ---------- what the limiter promises ----------

  /** A limiter that permits nothing raises an exception at every request, and it is the only kind that does. */
  lemma {:induction false} RaisesExactlyWithoutMaximum(max: int, window: real, trace: Trace, key: string, now: real)
    ensures Checked(max, window, HitsAfter(max, window, trace), key, now).1 == IndexError <==> max < 1
  {
    if max < 1 { NothingQueued(max, window, trace, key); }
  }

  lemma {:induction false} NothingQueued(max: int, window: real, trace: Trace, key: string)
    requires max < 1
    ensures QueueOf(HitsAfter(max, window, trace), key) == []
  {
    if trace.Then? {
      NothingQueued(max, window, trace.earlier, key);
      if trace.event.Check? && trace.event.key != key { NothingQueued(max, window, trace.earlier, trace.event.key); }
    }
  }

  /** After any run, `check` gives the answer that the admissions in the window call for. */
  lemma {:induction false} CheckIsExact(max: int, window: real, trace: Trace, key: string, now: real)
    requires max >= 1 && InOrder(Then(trace, Check(key, now)))
    ensures Checked(max, window, HitsAfter(max, window, trace), key, now).1
        == Judge(max, window, LogAfter(max, window, trace), key, now)
  {
    RunAgrees(max, window, trace, now);
    CheckAnswers(max, window, HitsAfter(max, window, trace), LogAfter(max, window, trace), key, now);
  }

  /** No closed interval of one window's length ever holds more than `max` admissions of a key. */
  lemma {:induction false} NoWindowOverfull(max: int, window: real, trace: Trace, key: string, from: real)
    requires max >= 1 && InOrder(trace)
    ensures |Within(LogAfter(max, window, trace), key, from, from + window)| <= max
  {
    if trace.Then? {
      NoWindowOverfull(max, window, trace.earlier, key, from);
      if trace.event.Check? && trace.event.key == key && from <= trace.event.now <= from + window {
        var log, now := LogAfter(max, window, trace.earlier), trace.event.now;
        LogInOrder(max, window, trace.earlier, now);
        UpperEnd(log, key, from, now, from + window);
        WithinLarger(log, key, from, now, now - window, now);
      }
    }
  }

  function WithoutSweeps(trace: Trace): Trace {
    match trace
    case Start => Start
    case Then(earlier, Check(_, _)) => Then(WithoutSweeps(earlier), trace.event)
    case Then(earlier, Sweep(_, _)) => WithoutSweeps(earlier)
  }

  lemma {:induction false} LogIgnoresSweeps(max: int, window: real, trace: Trace)
    requires max >= 1
    ensures LogAfter(max, window, WithoutSweeps(trace)) == LogAfter(max, window, trace)
  {
    if trace.Then? { LogIgnoresSweeps(max, window, trace.earlier); }
  }

  /** Two runs that differ only in where, when and how they swept give the next request the same answer. */
  lemma {:induction false} SweepsInvisible(max: int, window: real, one: Trace, two: Trace, key: string, now: real)
    requires max >= 1 && WithoutSweeps(one) == WithoutSweeps(two)
    requires InOrder(Then(one, Check(key, now))) && InOrder(Then(two, Check(key, now)))
    ensures Checked(max, window, HitsAfter(max, window, one), key, now).1
        == Checked(max, window, HitsAfter(max, window, two), key, now).1
  {
    CheckIsExact(max, window, one, key, now);
    CheckIsExact(max, window, two, key, now);
    LogIgnoresSweeps(max, window, one);
    LogIgnoresSweeps(max, window, two);
  }

  /** `later` continues `trace` without another request for `key`. */
  ghost predicate Quiet(trace: Trace, later: Trace, key: string) {
    later == trace || (later.Then? && (later.event.Check? ==> later.event.key != key)
        && Quiet(trace, later.earlier, key))
  }

  lemma {:induction false} QuietLog(max: int, window: real, trace: Trace, later: Trace, key: string, from: real,
      to: real)
    requires max >= 1 && Quiet(trace, later, key)
    ensures Within(LogAfter(max, window, later), key, from, to) == Within(LogAfter(max, window, trace), key, from, to)
  {
    if later != trace { QuietLog(max, window, trace, later.earlier, key, from, to); }
  }

  lemma {:induction false} QuietInOrder(trace: Trace, later: Trace, key: string, now: real)
    requires InOrder(Then(later, Check(key, now))) && Quiet(trace, later, key)
    ensures InOrder(trace) && (trace.Then? ==> trace.event.now <= now)
  {
    if later != trace { QuietInOrder(trace, later.earlier, key, now); }
  }

  /**
  The waiting time a refused client is told is exact, whatever other clients and sweeps do
  meanwhile: its next request is admitted if and only if it has waited longer than that.
  */
  lemma {:induction false} RetryTimeIsExact(max: int, window: real, trace: Trace, key: string, now: real,
      later: Trace, again: real)
    requires max >= 1
    requires InOrder(Then(later, Check(key, again))) && Quiet(Then(trace, Check(key, now)), later, key)
    requires !Checked(max, window, HitsAfter(max, window, trace), key, now).1.allowed
    ensures Checked(max, window, HitsAfter(max, window, later), key, again).1.allowed
      <==> again > now + Checked(max, window, HitsAfter(max, window, trace), key, now).1.retry
  {
    var refused := Then(trace, Check(key, now));
    QuietInOrder(refused, later, key, again);
    CheckIsExact(max, window, trace, key, now);
    CheckIsExact(max, window, later, key, again);
    var log := LogAfter(max, window, trace);
    QuietLog(max, window, refused, later, key, again - window, again);
    LogInOrder(max, window, trace, now);
    LogNewestFirst(max, window, trace);
    UpperEnd(log, key, again - window, now, again);
    NoWindowOverfull(max, window, trace, key, now - window);
    FullUntilOldestLeaves(max, log, key, now - window, now, again - window);
  }

  /** An interval that holds exactly `max` admissions holds fewer exactly once its lower end has passed the oldest. */
  lemma {:induction false} FullUntilOldestLeaves(max: int, log: Log, key: string, from: real, to: real, from': real)
    requires max >= 1 && NewestFirst(log) && from <= from' && |Within(log, key, from, to)| == max
    ensures |Within(log, key, from', to)| < max <==> from' > Within(log, key, from, to)[0]
  {
    if from' > Within(log, key, from, to)[0] {
      WithinDropsOldest(log, key, from, to, from');
    } else {
      WithinKeepsOldest(log, key, from, to, from');
    }
  }

  /** The answer to a check after a run. */
  function AnswerAfter(max: int, window: real, trace: Trace, key: string, now: real): Reply {
    Checked(max, window, HitsAfter(max, window, trace), key, now).1
  }

  /** A key that was never checked is admitted with one less than the maximum remaining. */
  lemma {:induction false} FirstCheckIsAdmitted(max: int, window: real, trace: Trace, key: string, now: real)
    requires max >= 1 && key !in HitsAfter(max, window, trace)
    ensures AnswerAfter(max, window, trace, key, now) == Reply(true, max - 1, 0.0)
  {
  }

  /** `remaining` is the number of further checks that would be admitted at once: each uses up one, and at 0 none is. */
  lemma {:induction false} RemainingIsHowManyMore(max: int, window: real, trace: Trace, key: string, now: real)
    requires max >= 1 && window >= 0.0 && AnswerAfter(max, window, trace, key, now).allowed
    ensures
      var first := AnswerAfter(max, window, trace, key, now);
      var second := AnswerAfter(max, window, Then(trace, Check(key, now)), key, now);
      && first.remaining >= 0
      && (second.allowed <==> first.remaining > 0)
      && (second.allowed ==> second.remaining == first.remaining - 1)
      && (!second.allowed ==> second.remaining == 0)
  {
    var q := Prune(QueueOf(HitsAfter(max, window, trace), key), now - window);
    PruneStops(QueueOf(HitsAfter(max, window, trace), key), now - window);
    assert HitsAfter(max, window, Then(trace, Check(key, now)))[key] == q + [now];
    assert Prune(q + [now], now - window) == q + [now];
  }

  lemma {:induction false} PruneStops(q: seq<real>, cutoff: real)
    ensures var left := Prune(q, cutoff); left != [] ==> left[0] >= cutoff
  {
    if q != [] && q[0] < cutoff { PruneStops(q[1..], cutoff); }
  }
}

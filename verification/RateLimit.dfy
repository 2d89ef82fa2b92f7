/**
 * The fixed-window rate limiter on one Redis counter (services/chat/src/read_state.rs).
 * Times are whole seconds, as in the EXPIRE and TTL commands it uses.
 */
module RateLimit {
  import opened Prelude

  /** The counter key: its count and when it expires, if an expiry was ever set. */
  datatype Counter = Counter(count: nat, expires: Option<nat>)

  function Current(key: Option<Counter>, now: nat): Option<Counter> {
    if key.Some? && key.value.expires.Some? && key.value.expires.value <= now then None else key
  }

  function WithExpiry(key: Option<Counter>, at: nat): Option<Counter> {
    if key.Some? then Some(key.value.(expires := Some(at))) else None
  }

  datatype Verdict = Admitted | Rejected(retryAfter: nat)

  class Redis {
    var key: Option<Counter>

    constructor ()
      ensures key == None
    {
      key := None;
    }

    method Incr(now: nat) returns (count: nat)
      modifies this
      ensures var before := Current(old(key), now);
              && count == (if before.Some? then before.value.count + 1 else 1)
              && key == Some(Counter(count, if before.Some? then before.value.expires else None))
    {
      key := Current(key, now);
      count := if key.Some? then key.value.count + 1 else 1;
      key := Some(Counter(count, if key.Some? then key.value.expires else None));
    }

    /** Does nothing to a key that does not exist. */
    method Expire(now: nat, seconds: nat)
      modifies this
      ensures key == WithExpiry(Current(old(key), now), now + seconds)
    {
      key := WithExpiry(Current(key, now), now + seconds);
    }

    /** Seconds to live, -1 when no expiry is set, -2 when there is no key. */
    function Ttl(now: nat): int
      reads this
    {
      TtlOf(Current(key, now), now)
    }
  }

  function TtlOf(key: Option<Counter>, now: nat): int {
    if key.None? then -2 else if key.value.expires.Some? then key.value.expires.value - now else -1
  }

  /** What one call decides and leaves behind when Redis answers every command. */
  function Decide(key: Option<Counter>, now: nat, limit: nat, window: nat): (Verdict, Counter) {
    var current := Current(key, now);
    var count := if current.Some? then current.value.count + 1 else 1;
    var expires := if count == 1 then Some(now + window) else current.value.expires;
    var wait := if expires.Some? && expires.value > now then expires.value - now else window;
    (if count <= limit then Admitted else Rejected(if wait < 1 then 1 else wait), Counter(count, expires))
  }

  /** Which of the three commands Redis answers. */
  datatype Replies = Replies(incr: bool, expire: bool, ttl: bool)

  const AllUp := Replies(true, true, true)

  /** One call with any pattern of failures; an unanswered INCR counts as the first call. */
  function Respond(key: Option<Counter>, now: nat, limit: nat, window: nat, up: Replies): (Verdict, Option<Counter>) {
    var before := Current(key, now);
    var count := if up.incr && before.Some? then before.value.count + 1 else 1;
    var counted := if up.incr then Some(Counter(count, if before.Some? then before.value.expires else None)) else key;
    var after := if count == 1 && up.expire then WithExpiry(Current(counted, now), now + window) else counted;
    if count <= limit then (Admitted, after)
    else
      var ttl := if up.ttl then TtlOf(Current(after, now), now) else window;
      var secs: nat := if ttl > 0 then ttl else window;
      (Rejected(if secs < 1 then 1 else secs), after)
  }

  lemma RespondAllUp(key: Option<Counter>, now: nat, limit: nat, window: nat)
    ensures var (verdict, counter) := Decide(key, now, limit, window);
            Respond(key, now, limit, window, AllUp) == (verdict, Some(counter))
  {
  }

  method CheckRateLimit(redis: Redis, limit: nat, window: nat, now: nat, up: Replies) returns (verdict: Verdict)
    modifies redis
    ensures (verdict, redis.key) == Respond(old(redis.key), now, limit, window, up)
    ensures up == AllUp ==>
              verdict == Decide(old(redis.key), now, limit, window).0
              && redis.key == Some(Decide(old(redis.key), now, limit, window).1)
    ensures !up.incr && limit >= 1 ==> verdict == Admitted
    ensures !up.incr && !up.expire ==> redis.key == old(redis.key)
    ensures !up.incr && up.expire ==> redis.key == WithExpiry(Current(old(redis.key), now), now + window)
    ensures !up.ttl && verdict.Rejected? ==> verdict.retryAfter == if window < 1 then 1 else window
  {
    RespondAllUp(redis.key, now, limit, window);
    var count := 1;
    if up.incr {
      count := redis.Incr(now);
    }
    if count == 1 && up.expire {
      redis.Expire(now, window);
    }
    if count <= limit {
      return Admitted;
    }
    var ttl: int := window;
    if up.ttl {
      ttl := redis.Ttl(now);
    }
    var secs: nat := if ttl > 0 then ttl else window;
    return Rejected(if secs < 1 then 1 else secs);
  }

  // ── A user's calls over time ──

  /** The counter after calls at these times (oldest first). */
  function After(calls: seq<nat>, limit: nat, window: nat): Option<Counter> {
    if calls == [] then None
    else Some(Decide(After(calls[..|calls| - 1], limit, window), calls[|calls| - 1], limit, window).1)
  }

  function VerdictOf(calls: seq<nat>, i: nat, limit: nat, window: nat): Verdict
    requires i < |calls|
  {
    Decide(After(calls[..i], limit, window), calls[i], limit, window).0
  }

  ghost predicate InOrder(calls: seq<nat>) {
    forall i, j {:trigger calls[i], calls[j]} :: 0 <= i < j < |calls| ==> calls[i] <= calls[j]
  }

  /** Calls admitted in the half-open interval [from, from + window). */
  function AdmittedIn(calls: seq<nat>, from: nat, limit: nat, window: nat): nat {
    if calls == [] then 0
    else
      var last := |calls| - 1;
      AdmittedIn(calls[..last], from, limit, window)
      + if VerdictOf(calls, last, limit, window).Admitted? && from <= calls[last] < from + window then 1 else 0
  }

  function Min(a: nat, b: nat): nat {
    if a < b then a else b
  }

  /** With Redis up, every counter has an expiry, set by the call that opened its window. */
  lemma {:induction false} WindowOpenedBefore(calls: seq<nat>, limit: nat, window: nat)
    requires InOrder(calls) && calls != []
    ensures var c := After(calls, limit, window).value;
            && c.count >= 1 && c.expires.Some?
            && window <= c.expires.value <= calls[|calls| - 1] + window
            && (window > 0 ==> calls[|calls| - 1] < c.expires.value)
    decreases |calls|
  {
    if |calls| > 1 {
      WindowOpenedBefore(calls[..|calls| - 1], limit, window);
    }
  }

  /** When the window that the last call fell into began. */
  function WindowStart(calls: seq<nat>, limit: nat, window: nat): int
    requires calls != []
  {
    var expires := After(calls, limit, window).value.expires;
    (if expires.Some? then expires.value else 0) - window
  }

  /**
   * The accounting behind the bound. Let the last window start at o and have seen c calls.
   * If o is before `from`, no earlier window reaches into the interval; if o lies in it, at
   * most one does; and if o is past it, nothing counts any more.
   */
  lemma {:induction false} AdmittedSoFar(calls: seq<nat>, from: nat, limit: nat, window: nat)
    requires InOrder(calls) && calls != [] && window > 0
    ensures calls[|calls| - 1] < from ==> AdmittedIn(calls, from, limit, window) == 0
    ensures var count, start := After(calls, limit, window).value.count, WindowStart(calls, limit, window);
            AdmittedIn(calls, from, limit, window)
            <= (if start < from then Min(count, limit)
                else if start < from + window then limit + Min(count, limit)
                else 2 * limit)
    decreases |calls|
  {
    WindowOpenedBefore(calls, limit, window);
    var n := |calls| - 1;
    assert calls[..n] == [] ==> AdmittedIn(calls[..n], from, limit, window) == 0;
    if n > 0 {
      var before := calls[..n];
      WindowOpenedBefore(before, limit, window);
      AdmittedSoFar(before, from, limit, window);
      assert before[n - 1] <= calls[n];
    }
  }

  // ── Windows, from the call times alone ──

  /** When the window that the last call falls into was opened: by itself, if the one before is over. */
  function OpenedAt(calls: seq<nat>, window: nat): nat
    requires calls != []
  {
    var last := calls[|calls| - 1];
    if |calls| == 1 then last
    else
      var start := OpenedAt(calls[..|calls| - 1], window);
      if last < start + window then start else last
  }

  /** How many earlier calls fell into the window of the last call. */
  function EarlierInWindow(calls: seq<nat>, window: nat): nat
    requires calls != []
  {
    CallsFrom(calls[..|calls| - 1], OpenedAt(calls, window))
  }

  function CallsFrom(calls: seq<nat>, from: nat): nat {
    if calls == [] then 0
    else CallsFrom(calls[..|calls| - 1], from) + if calls[|calls| - 1] >= from then 1 else 0
  }

  lemma {:induction false} NoCallsFrom(calls: seq<nat>, from: nat)
    requires forall i {:trigger calls[i]} :: 0 <= i < |calls| ==> calls[i] < from
    ensures CallsFrom(calls, from) == 0
  {
    if calls != [] {
      NoCallsFrom(calls[..|calls| - 1], from);
    }
  }

  /** The window is not over, and no call comes after the last one. */
  lemma {:induction false} OpenedBefore(calls: seq<nat>, window: nat)
    requires InOrder(calls) && calls != [] && window >= 1
    ensures OpenedAt(calls, window) <= calls[|calls| - 1] < OpenedAt(calls, window) + window
  {
    if |calls| > 1 {
      OpenedBefore(calls[..|calls| - 1], window);
      assert calls[..|calls| - 1][|calls| - 2] == calls[|calls| - 2] <= calls[|calls| - 1];
    }
  }

  /** The counter is the window's opening time and its calls so far. */
  lemma {:induction false} CounterIsWindow(calls: seq<nat>, limit: nat, window: nat)
    requires InOrder(calls) && calls != [] && window >= 1
    ensures After(calls, limit, window)
         == Some(Counter(EarlierInWindow(calls, window) + 1, Some(OpenedAt(calls, window) + window)))
    decreases |calls|
  {
    var n := |calls| - 1;
    if n > 0 {
      var before := calls[..n];
      CounterIsWindow(before, limit, window);
      OpenedBefore(before, window);
      OneMoreCall(calls, window);
    } else {
      assert calls[..0] == [];
    }
  }

  /** The next call joins the window, or opens one with no earlier calls. */
  lemma OneMoreCall(calls: seq<nat>, window: nat)
    requires InOrder(calls) && |calls| >= 2 && window >= 1
    ensures var before, last := calls[..|calls| - 1], calls[|calls| - 1];
            EarlierInWindow(calls, window)
            == if last < OpenedAt(before, window) + window then EarlierInWindow(before, window) + 1 else 0
  {
    var before, last := calls[..|calls| - 1], calls[|calls| - 1];
    OpenedBefore(before, window);
    if last >= OpenedAt(before, window) + window {
      forall i {:trigger before[i]} | 0 <= i < |before| ensures before[i] < last {
        assert before[i] == calls[i] && calls[i] <= calls[|calls| - 2] == before[|before| - 1];
      }
      NoCallsFrom(before, last);
    }
  }

  // ── Main results ──

  /**
   * Over every ordered sequence of calls: a call is rejected if and only if at least
   * `limit` earlier calls fell into its window, and is then told to wait for that window's
   * end. So the first `limit` calls of every window are admitted.
   */
  lemma RejectedIff(calls: seq<nat>, limit: nat, window: nat)
    requires InOrder(calls) && calls != [] && window >= 1
    ensures var verdict := VerdictOf(calls, |calls| - 1, limit, window);
            && (verdict.Rejected? <==> EarlierInWindow(calls, window) >= limit)
            && (verdict.Rejected? ==> verdict.retryAfter == OpenedAt(calls, window) + window - calls[|calls| - 1])
  {
    CounterIsWindow(calls, limit, window);
    OpenedBefore(calls, window);
  }

  /** No interval of one window's length sees more than twice the limit. */
  lemma AtMostTwiceTheLimit(calls: seq<nat>, from: nat, limit: nat, window: nat)
    requires InOrder(calls) && window > 0
    ensures AdmittedIn(calls, from, limit, window) <= 2 * limit
  {
    if calls != [] {
      AdmittedSoFar(calls, from, limit, window);
    }
  }

  /**
   * A rejected call is told to wait between one second and one window, and the next call
   * made after exactly that wait is admitted.
   */
  lemma WaitingHelps(calls: seq<nat>, limit: nat, window: nat)
    requires InOrder(calls) && calls != [] && limit >= 1 && window >= 1
    requires VerdictOf(calls, |calls| - 1, limit, window).Rejected?
    ensures var wait := VerdictOf(calls, |calls| - 1, limit, window).retryAfter;
            && 1 <= wait <= window
            && VerdictOf(calls + [calls[|calls| - 1] + wait], |calls|, limit, window).Admitted?
  {
    var n := |calls| - 1;
    WindowOpenedBefore(calls, limit, window);
    var wait := VerdictOf(calls, n, limit, window).retryAfter;
    var longer := calls + [calls[n] + wait];
    assert longer[..n + 1] == calls;
  }

  // ── When Redis fails now and then ──

  datatype Attempt = Attempt(at: nat, up: Replies)

  function Left(attempts: seq<Attempt>, limit: nat, window: nat): Option<Counter> {
    if attempts == [] then None
    else
      var last := attempts[|attempts| - 1];
      Respond(Left(attempts[..|attempts| - 1], limit, window), last.at, limit, window, last.up).1
  }

  ghost predicate Ordered(attempts: seq<Attempt>) {
    forall i, j {:trigger attempts[i], attempts[j]} :: 0 <= i < j < |attempts| ==> attempts[i].at <= attempts[j].at
  }

  /** No expiry lies further ahead than one window. */
  lemma {:induction false} ExpiryWithinWindow(attempts: seq<Attempt>, limit: nat, window: nat)
    requires Ordered(attempts) && attempts != []
    ensures var key := Left(attempts, limit, window);
            key.Some? && key.value.expires.Some? ==> key.value.expires.value <= attempts[|attempts| - 1].at + window
  {
    var n := |attempts| - 1;
    if n > 0 {
      ExpiryWithinWindow(attempts[..n], limit, window);
      assert attempts[..n][n - 1] == attempts[n - 1];
    }
  }

  /**
   * Whatever failed so far, a rejection's wait is between one second and one window; and
   * the next answered call after it is admitted exactly when the counter has an expiry.
   * Counting and setting the expiry are two commands: once the second one is lost, waiting
   * never helps again.
   */
  lemma WaitingHelpsIff(attempts: seq<Attempt>, at: nat, up: Replies, limit: nat, window: nat)
    requires Ordered(attempts) && (attempts != [] ==> attempts[|attempts| - 1].at <= at) && limit >= 1 && window >= 1
    requires Respond(Left(attempts, limit, window), at, limit, window, up).0.Rejected?
    ensures var (verdict, key) := Respond(Left(attempts, limit, window), at, limit, window, up);
            && 1 <= verdict.retryAfter <= window
            && key.Some?
            && (Respond(key, at + verdict.retryAfter, limit, window, AllUp).0 == Admitted <==> key.value.expires.Some?)
  {
    if attempts != [] {
      ExpiryWithinWindow(attempts, limit, window);
    }
  }

  /** n calls in one second, during which Redis counts but does not take the expiry. */
  function LossyCalls(n: nat): seq<Attempt> {
    if n == 0 then [] else LossyCalls(n - 1) + [Attempt(0, Replies(true, false, true))]
  }

  lemma {:induction false} LossyCallsInOrder(n: nat)
    ensures |LossyCalls(n)| == n && forall i {:trigger LossyCalls(n)[i]} :: 0 <= i < n ==> LossyCalls(n)[i].at == 0
  {
    if n > 0 {
      LossyCallsInOrder(n - 1);
    }
  }

  lemma {:induction false} LossyCallsCount(n: nat, limit: nat, window: nat)
    ensures Left(LossyCalls(n), limit, window) == if n == 0 then None else Some(Counter(n, None))
  {
    if n > 0 {
      LossyCallsCount(n - 1, limit, window);
      OneMoreLossyCall(LossyCalls(n - 1), n - 1, limit, window);
    }
  }

  lemma OneMoreLossyCall(attempts: seq<Attempt>, n: nat, limit: nat, window: nat)
    requires Left(attempts, limit, window) == if n == 0 then None else Some(Counter(n, None))
    ensures Left(attempts + [Attempt(0, Replies(true, false, true))], limit, window) == Some(Counter(n + 1, None))
  {
    LeftSnoc(attempts, Attempt(0, Replies(true, false, true)), limit, window);
    LossyCall(Left(attempts, limit, window), n, limit, window);
  }

  lemma LeftSnoc(attempts: seq<Attempt>, a: Attempt, limit: nat, window: nat)
    ensures Left(attempts + [a], limit, window) == Respond(Left(attempts, limit, window), a.at, limit, window, a.up).1
  {
    assert (attempts + [a])[..|attempts|] == attempts;
  }

  lemma LossyCall(key: Option<Counter>, n: nat, limit: nat, window: nat)
    requires key == if n == 0 then None else Some(Counter(n, None))
    ensures Respond(key, 0, limit, window, Replies(true, false, true)).1 == Some(Counter(n + 1, None))
  {
  }

  lemma OverTheLimit(limit: nat, window: nat)
    requires limit >= 1 && window >= 1
    ensures Respond(Some(Counter(limit, None)), 0, limit, window, AllUp)
         == (Rejected(window), Some(Counter(limit + 1, None)))
  {
  }

  /** A counter without an expiry over the limit does come about: lose the EXPIRE of the first call. */
  lemma LostExpiryIsReachable(limit: nat, window: nat)
    requires limit >= 1 && window >= 1
    ensures Ordered(LossyCalls(limit))
    ensures Respond(Left(LossyCalls(limit), limit, window), 0, limit, window, AllUp)
         == (Rejected(window), Some(Counter(limit + 1, None)))
  {
    LossyCallsInOrder(limit);
    LossyCallsCount(limit, limit, window);
    OverTheLimit(limit, window);
  }

  /** A counter that lost its expiry rejects every later answered call over the limit. */
  lemma {:induction false} LostExpiryLocksOut(count: nat, times: seq<nat>, limit: nat, window: nat)
    requires count >= limit && count >= 1 && window >= 1 && times != []
    ensures Locked(Counter(count, None), times, limit, window)
    decreases |times|
  {
    if |times| > 1 {
      LostExpiryLocksOut(count + 1, times[1..], limit, window);
    }
  }

  /** All calls at these times are rejected for a full window, from this counter on. */
  predicate Locked(key: Counter, times: seq<nat>, limit: nat, window: nat)
    decreases |times|
  {
    times == [] ||
    var (verdict, next) := Decide(Some(key), times[0], limit, window);
    verdict == Rejected(window) && Locked(next, times[1..], limit, window)
  }
}

/** api/security.py: the in-memory sliding-window limiter and the durable fixed-window one,
    over runs with a clock that never goes back. Times are seconds. */
module RateLimit {
  import opened Wrappers

  /** `Fault` is the exception `min([])` raises. */
  datatype Verdict = Allowed | Retry(seconds: int) | Fault

  // ----- counting attempts -----

  /** Attempts in the half-open interval [from, to). */
  function Between(s: seq<real>, from: real, to: real): nat {
    if s == [] then 0
    else Between(s[..|s| - 1], from, to) + if from <= s[|s| - 1] < to then 1 else 0
  }

  /** Attempts in the window that opens at `t`. */
  function InWindow(s: seq<real>, t: real, window: real): nat {
    Between(s, t, t + window)
  }

  lemma BetweenSnoc(s: seq<real>, x: real, from: real, to: real)
    ensures Between(s + [x], from, to) == Between(s, from, to) + if from <= x < to then 1 else 0
  {
    assert (s + [x])[..|s|] == s;
  }

  lemma {:induction false} BetweenSplit(s: seq<real>, from: real, middle: real, to: real)
    requires from <= middle <= to
    ensures Between(s, from, to) == Between(s, from, middle) + Between(s, middle, to)
  {
    if s != [] {
      BetweenSplit(s[..|s| - 1], from, middle, to);
    }
  }

  lemma {:induction false} BetweenNarrow(s: seq<real>, from: real, to: real, from': real, to': real)
    requires from <= from' && to' <= to
    ensures Between(s, from', to') <= Between(s, from, to)
  {
    if s != [] {
      BetweenNarrow(s[..|s| - 1], from, to, from', to');
    }
  }

  lemma {:induction false} BetweenEmpty(s: seq<real>, from: real, to: real)
    requires forall i :: 0 <= i < |s| ==> !(from <= s[i] < to)
    ensures Between(s, from, to) == 0
  {
    if s != [] {
      BetweenEmpty(s[..|s| - 1], from, to);
    }
  }

  lemma {:induction false} BetweenHas(s: seq<real>, x: real, from: real, to: real)
    requires x in s && from <= x < to
    ensures Between(s, from, to) >= 1
  {
    var n := |s| - 1;
    if s[n] != x {
      assert x in s[..n];
      BetweenHas(s[..n], x, from, to);
    }
  }

  // ----- sliding window -----

  /** `[t for t in attempts if now - t < window]`. */
  function Recent(s: seq<real>, now: real, window: real): (r: seq<real>)
    ensures forall x :: x in r <==> x in s && now - x < window
  {
    if s == [] then []
    else
      var rest, last := Recent(s[..|s| - 1], now, window), s[|s| - 1];
      assert s == s[..|s| - 1] + [last];
      if now - last < window then rest + [last] else rest
  }

  /** Forgetting in two steps is forgetting at the later time. */
  lemma {:induction false} RecentAgain(s: seq<real>, earlier: real, now: real, window: real)
    requires earlier <= now
    ensures Recent(Recent(s, earlier, window), now, window) == Recent(s, now, window)
  {
    if s != [] {
      var n := |s| - 1;
      RecentAgain(s[..n], earlier, now, window);
      var rest := Recent(s[..n], earlier, window);
      if earlier - s[n] < window {
        assert (rest + [s[n]])[..|rest|] == rest;
      }
    }
  }

  /** Whatever falls in a window that is still open at `now` is still remembered. */
  lemma {:induction false} WindowIsRecent(s: seq<real>, t: real, now: real, window: real)
    requires t <= now < t + window
    ensures InWindow(s, t, window) <= |Recent(s, now, window)|
  {
    if s != [] {
      WindowIsRecent(s[..|s| - 1], t, now, window);
    }
  }

  /** Once one of them has expired, fewer are remembered. */
  lemma {:induction false} RecentShrinks(s: seq<real>, x: real, later: real, window: real)
    requires x in s && later - x >= window
    ensures |Recent(s, later, window)| < |s|
  {
    var n := |s| - 1;
    RecentNoLonger(s[..n], later, window);
    if s[n] != x {
      assert x in s[..n];
      RecentShrinks(s[..n], x, later, window);
    }
  }

  lemma {:induction false} RecentNoLonger(s: seq<real>, later: real, window: real)
    ensures |Recent(s, later, window)| <= |s|
  {
    if s != [] {
      RecentNoLonger(s[..|s| - 1], later, window);
    }
  }

  function Oldest(s: seq<real>): (m: real)
    requires s != []
    ensures m in s && forall x :: x in s ==> m <= x
  {
    var n := |s| - 1;
    if n == 0 then s[0]
    else
      assert s == s[..n] + [s[n]];
      var m := Oldest(s[..n]);
      if s[n] < m then s[n] else m
  }

  /** `max(1, int(seconds) + 1)` for a positive number of seconds. */
  function WaitFor(seconds: real): int {
    var n := seconds.Floor + 1;
    if n < 1 then 1 else n
  }

  /** The wait is enough, and at most a second more than needed. */
  lemma WaitTight(seconds: real)
    requires seconds > 0.0
    ensures seconds < WaitFor(seconds) as real <= seconds + 1.0
  {
  }

  /** The short list answers every later question as the full history would. */
  ghost predicate Remembers(attempts: seq<real>, accepted: seq<real>, clock: real, window: real) {
    forall now :: clock <= now ==> Recent(attempts, now, window) == Recent(accepted, now, window)
  }

  lemma Forget(attempts: seq<real>, accepted: seq<real>, clock: real, now: real, window: real)
    requires Remembers(attempts, accepted, clock, window)
    requires clock <= now || (accepted == [] && attempts == [])
    ensures Recent(attempts, now, window) == Recent(accepted, now, window)
    ensures Remembers(Recent(attempts, now, window), accepted, now, window)
  {
    forall later | now <= later
      ensures Recent(Recent(attempts, now, window), later, window) == Recent(accepted, later, window)
    {
      RecentAgain(accepted, now, later, window);
    }
  }

  lemma Remember(recent: seq<real>, accepted: seq<real>, now: real, window: real)
    requires Remembers(recent, accepted, now, window)
    ensures Remembers(recent + [now], accepted + [now], now, window)
  {
    forall later | now <= later
      ensures Recent(recent + [now], later, window) == Recent(accepted + [now], later, window)
    {
      RecentSnoc(recent, now, later, window);
      RecentSnoc(accepted, now, later, window);
    }
  }

  /** After the wait, the oldest remembered attempt has expired. */
  lemma WaitSuffices(recent: seq<real>, accepted: seq<real>, now: real, window: real, wait: int)
    requires recent != [] && Remembers(recent, accepted, now, window)
    requires wait == WaitFor(window - (now - Oldest(recent)))
    ensures forall later :: later >= now + wait as real ==> |Recent(accepted, later, window)| < |recent|
  {
    forall later | later >= now + wait as real ensures |Recent(accepted, later, window)| < |recent| {
      RecentShrinks(recent, Oldest(recent), later, window);
    }
  }

  class LoginRateLimiter {
    const maxAttempts: int
    const window: real
    var attempts: seq<real>
    /** Every attempt accepted since the last reset, and the time of the last call. */
    ghost var accepted: seq<real>
    ghost var clock: real

    /** No window of this length holds more than `maxAttempts` accepted attempts. */
    ghost predicate Bounded()
      reads this
    {
      forall t: real :: InWindow(accepted, t, window) <= if maxAttempts > 0 then maxAttempts else 0
    }

    /** The list remembers everything that can still matter. */
    ghost predicate Valid()
      reads this
    {
      && (accepted == [] ==> attempts == [])
      && Remembers(attempts, accepted, clock, window)
      && |attempts| <= (if maxAttempts > 0 then maxAttempts else 0)
      && Bounded()
    }

    constructor (maxAttempts: int, window: real)
      ensures Valid() && accepted == [] && this.maxAttempts == maxAttempts && this.window == window
    {
      this.maxAttempts, this.window := maxAttempts, window;
      attempts, accepted, clock := [], [], 0.0;
    }

    /** api/security.py:221-238. */
    method CheckAndRecord(now: real) returns (v: Verdict)
      requires Valid() && (accepted != [] ==> clock <= now)
      modifies this
      ensures Valid() && clock == now
      ensures v.Allowed? <==> |Recent(old(accepted), now, window)| < maxAttempts
      ensures accepted == if v.Allowed? then old(accepted) + [now] else old(accepted)
      ensures v.Fault? <==> maxAttempts <= 0
      ensures v.Retry? ==> attempts != [] && v.seconds == WaitFor(window - (now - Oldest(attempts)))
      ensures v.Retry? ==>
        forall later :: later >= now + v.seconds as real ==> |Recent(accepted, later, window)| < maxAttempts
      ensures v.Retry? ==> Oldest(attempts) + window < now + v.seconds as real <= Oldest(attempts) + window + 1.0
    {
      hide Between, Recent, Remembers, InWindow;
      var recent := Recent(attempts, now, window);
      RecentNoLonger(attempts, now, window);
      Forget(attempts, accepted, clock, now, window);
      clock := now;
      if |recent| >= maxAttempts {
        attempts := recent;
        if recent == [] { return Fault; }
        v := Retry(WaitFor(window - (now - Oldest(recent))));
        WaitTight(window - (now - Oldest(recent)));
        WaitSuffices(recent, accepted, now, window, v.seconds);
        return;
      }
      AcceptBounded(accepted, now, window, maxAttempts);
      Remember(recent, accepted, now, window);
      attempts := recent + [now];
      accepted := accepted + [now];
      v := Allowed;
    }

    /** api/security.py:240-242: a new budget. */
    method Reset()
      modifies this
      ensures Valid() && accepted == [] && attempts == []
    {
      attempts, accepted := [], [];
    }
  }

  lemma RecentSnoc(s: seq<real>, x: real, now: real, window: real)
    ensures Recent(s + [x], now, window) == Recent(s, now, window) + if now - x < window then [x] else []
  {
    assert (s + [x])[..|s|] == s;
  }

  /** Accepting while fewer than `limit` are remembered keeps every window within `limit`. */
  lemma AcceptBounded(accepted: seq<real>, now: real, window: real, limit: int)
    requires forall t: real :: InWindow(accepted, t, window) <= limit
    requires |Recent(accepted, now, window)| < limit
    ensures forall t: real :: InWindow(accepted + [now], t, window) <= limit
  {
    forall t: real ensures InWindow(accepted + [now], t, window) <= limit {
      BetweenSnoc(accepted, now, t, t + window);
      assert InWindow(accepted, t, window) <= limit;
      if t <= now < t + window {
        WindowIsRecent(accepted, t, now, window);
      }
    }
  }

  // ----- durable fixed window -----

  datatype Row = Row(start: real, count: int, lockedUntil: Option<real>)

  /** What the durable limiter can let through in one window length. */
  function DurableBound(maxAttempts: int): int {
    if maxAttempts > 0 then 2 * maxAttempts - 1 else 0
  }

  /** Everything the row says about the attempts accepted so far: none is later than the last
      call; the current window holds `count` of them, the first at its very start; and of the
      earlier ones, at most `maxAttempts - 1` lie within a window length of its start. */
  ghost predicate Explains(row: Row, accepted: seq<real>, clock: real, maxAttempts: int, window: real) {
    && row.start <= clock && 0 <= row.count
    && (maxAttempts > 0 ==> 1 <= row.count <= maxAttempts && row.start in accepted)
    && (maxAttempts <= 0 ==> accepted == [] && row.count == 0)
    && (forall x :: x in accepted ==> x <= clock && x < row.start + window)
    && (forall to :: to > clock ==> Between(accepted, row.start, to) == row.count)
    && (maxAttempts > 0 ==> forall t :: t > row.start - window ==> Between(accepted, t, row.start) <= maxAttempts - 1)
    && (row.lockedUntil.Some? ==>
          row.lockedUntil.value <= row.start
          || (row.lockedUntil.value == row.start + window && row.count >= maxAttempts))
  }

  ghost predicate DurablyBounded(accepted: seq<real>, maxAttempts: int, window: real) {
    forall t: real :: InWindow(accepted, t, window) <= DurableBound(maxAttempts)
  }

  lemma BetweenNone()
    ensures forall from, to :: Between([], from, to) == 0
  {
  }

  lemma BetweenOne(x: real, from: real, to: real)
    ensures Between([x], from, to) == if from <= x < to then 1 else 0
  {
    BetweenSnoc([], x, from, to);
    assert [] + [x] == [x];
  }

  lemma FirstAttempt(now: real, maxAttempts: int, window: real)
    requires maxAttempts > 0 && window > 0.0
    ensures Explains(Row(now, 1, None), [now], now, maxAttempts, window)
    ensures DurablyBounded([now], maxAttempts, window)
  {
    hide Between;
    forall t: real ensures InWindow([now], t, window) <= DurableBound(maxAttempts) {
      BetweenOne(now, t, t + window);
    }
    forall to | to > now ensures Between([now], now, to) == 1 {
      BetweenOne(now, now, to);
    }
    forall t | t > now - window ensures Between([now], t, now) <= maxAttempts - 1 {
      BetweenOne(now, t, now);
    }
  }

  /** One more attempt inside the current window. */
  lemma SameWindow(row: Row, accepted: seq<real>, clock: real, now: real, maxAttempts: int, window: real)
    requires Explains(row, accepted, clock, maxAttempts, window) && DurablyBounded(accepted, maxAttempts, window)
    requires window > 0.0 && clock <= now < row.start + window && 0 < row.count < maxAttempts
    ensures Explains(row.(count := row.count + 1), accepted + [now], now, maxAttempts, window)
    ensures DurablyBounded(accepted + [now], maxAttempts, window)
  {
    forall t: real ensures InWindow(accepted + [now], t, window) <= DurableBound(maxAttempts) {
      var to := t + window;
      BetweenSnoc(accepted, now, t, to);
      assert InWindow(accepted, t, window) <= DurableBound(maxAttempts);
      if t <= now < to {
        if t <= row.start {
          BetweenSplit(accepted, t, row.start, to);
        } else {
          BetweenNarrow(accepted, row.start, to, t, to);
        }
      }
    }
    forall to | to > now ensures Between(accepted + [now], row.start, to) == row.count + 1 {
      BetweenSnoc(accepted, now, row.start, to);
    }
    forall t | t > row.start - window ensures Between(accepted + [now], t, row.start) <= maxAttempts - 1 {
      BetweenSnoc(accepted, now, t, row.start);
    }
    assert row.start in accepted + [now];
  }

  /** After the current window has passed, at most `maxAttempts - 1` of its attempts lie within
      a window length of `now`: the first one, at its start, does not. */
  lemma OldWindowThins(row: Row, accepted: seq<real>, clock: real, now: real, maxAttempts: int, window: real,
                       t: real, to: real)
    requires Explains(row, accepted, clock, maxAttempts, window) && maxAttempts > 0 && window > 0.0
    requires clock <= now && row.start + window <= now && t > now - window
    ensures Between(accepted, t, to) <= maxAttempts - 1
  {
    var end := if to > clock then to else clock + 1.0;
    if t <= end {
      BetweenNarrow(accepted, t, end, t, to);
      BetweenSplit(accepted, row.start, t, end);
      BetweenHas(accepted, row.start, row.start, t);
    } else {
      BetweenEmpty(accepted, t, to);
    }
  }

  /** The first attempt of a new window. */
  lemma NewWindow(row: Row, accepted: seq<real>, clock: real, now: real, maxAttempts: int, window: real)
    requires Explains(row, accepted, clock, maxAttempts, window) && DurablyBounded(accepted, maxAttempts, window)
    requires window > 0.0 && maxAttempts > 0 && clock <= now && row.start + window <= now
    ensures Explains(row.(start := now, count := 1), accepted + [now], now, maxAttempts, window)
    ensures DurablyBounded(accepted + [now], maxAttempts, window)
  {
    forall t: real ensures InWindow(accepted + [now], t, window) <= DurableBound(maxAttempts) {
      BetweenSnoc(accepted, now, t, t + window);
      assert InWindow(accepted, t, window) <= DurableBound(maxAttempts);
      if t <= now < t + window {
        OldWindowThins(row, accepted, clock, now, maxAttempts, window, t, t + window);
      }
    }
    forall to | to > now ensures Between(accepted + [now], now, to) == 1 {
      BetweenSnoc(accepted, now, now, to);
      assert forall i :: 0 <= i < |accepted| ==> accepted[i] in accepted;
      BetweenEmpty(accepted, now, to);
    }
    forall t | t > now - window ensures Between(accepted + [now], t, now) <= maxAttempts - 1 {
      BetweenSnoc(accepted, now, t, now);
      OldWindowThins(row, accepted, clock, now, maxAttempts, window, t, now);
    }
    assert now in accepted + [now];
  }

  class DurableRateLimiter {
    const maxAttempts: int
    const window: real
    var row: Option<Row>
    ghost var accepted: seq<real>
    ghost var clock: real

    /** No window of this length holds more than the bound. */
    ghost predicate Valid()
      reads this
    {
      && window > 0.0 && DurablyBounded(accepted, maxAttempts, window)
      && match row
         case None => accepted == []
         case Some(r) => Explains(r, accepted, clock, maxAttempts, window)
    }

    constructor (maxAttempts: int, window: real)
      requires window > 0.0
      ensures Valid() && row.None? && this.maxAttempts == maxAttempts && this.window == window
    {
      this.maxAttempts, this.window := maxAttempts, window;
      row, accepted, clock := None, [], 0.0;
    }

    /** api/security.py:90-112, with the row locked for the whole call. */
    method Check(now: real) returns (v: Verdict)
      requires Valid() && (row.Some? ==> clock <= now)
      modifies this
      ensures Valid() && clock == now && row.Some?
      ensures accepted == if v.Allowed? then old(accepted) + [now] else old(accepted)
      ensures !v.Fault?
      ensures maxAttempts <= 0 ==> v.Retry?
      ensures maxAttempts > 0 ==>
        (v.Allowed? <==> old(row).None? || now >= old(row).value.start + window || old(row).value.count < maxAttempts)
      ensures v.Allowed? ==>
        if old(row).None? || now >= old(row).value.start + window then row.value.start == now && row.value.count == 1
        else row.value.start == old(row).value.start && row.value.count == old(row).value.count + 1
      ensures maxAttempts > 0 && v.Retry? ==>
        && row.value.start == old(row).value.start && v.seconds == WaitFor(row.value.start + window - now)
        && row.value.start + window < now + v.seconds as real <= row.value.start + window + 1.0
    {
      hide Between, InWindow;
      var r := if row.None? then Row(now, 0, None) else row.value;
      clock := now;
      if r.lockedUntil.Some? && r.lockedUntil.value > now {
        return Retry(WaitFor(r.lockedUntil.value - now));
      }
      var started := r.start;
      if now - started >= window {
        r := r.(start := now, count := 0);
      }
      if r.count >= maxAttempts {
        BetweenNone();
        r := r.(lockedUntil := Some(started + window));
        row := Some(r);
        return Retry(WaitFor(started + window - now));
      }
      if row.None? {
        FirstAttempt(now, maxAttempts, window);
        assert accepted + [now] == [now];
      } else if now - started >= window {
        NewWindow(row.value, accepted, old(clock), now, maxAttempts, window);
      } else {
        SameWindow(row.value, accepted, old(clock), now, maxAttempts, window);
      }
      r := r.(count := r.count + 1);
      row, accepted := Some(r), accepted + [now];
      v := Allowed;
    }
  }

  /** The bound is reached for every budget: one attempt at 0, the rest of the budget late in the
      window, and a full budget as soon as it has passed. */
  method WorstCase(maxAttempts: int, window: real) returns (limiter: DurableRateLimiter)
    requires maxAttempts > 0 && window > 0.0
    ensures limiter.Valid() && limiter.maxAttempts == maxAttempts && limiter.window == window
    ensures InWindow(limiter.accepted, window / 2.0, window) == 2 * maxAttempts - 1
  {
    hide Between, Explains, DurablyBounded;
    limiter := new DurableRateLimiter(maxAttempts, window);
    var t, to := window / 2.0, window / 2.0 + window;
    var v := limiter.Check(0.0);
    assert limiter.accepted == [0.0];
    BetweenOne(0.0, t, to);
    for i := 1 to maxAttempts
      invariant fresh(limiter) && limiter.Valid() && limiter.row.Some? && limiter.clock <= t
      invariant limiter.maxAttempts == maxAttempts && limiter.window == window
      invariant limiter.row.value.start == 0.0 && limiter.row.value.count == i
      invariant Between(limiter.accepted, t, to) == i - 1
    {
      BetweenSnoc(limiter.accepted, t, t, to);
      v := limiter.Check(t);
    }
    for i := 0 to maxAttempts
      invariant fresh(limiter) && limiter.Valid() && limiter.row.Some? && limiter.clock <= window
      invariant limiter.maxAttempts == maxAttempts && limiter.window == window
      invariant i == 0 ==> limiter.row.value.start == 0.0
      invariant i > 0 ==> limiter.row.value.start == window && limiter.row.value.count == i
      invariant Between(limiter.accepted, t, to) == maxAttempts - 1 + i
    {
      BetweenSnoc(limiter.accepted, window, t, to);
      v := limiter.Check(window);
    }
  }
}

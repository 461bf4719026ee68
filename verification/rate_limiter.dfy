/**
 * The staleness gate: a per-key map of last-fetch times. `ShouldFetch` answers whether a key's
 * cached data is old enough to refetch, `Reset` forgets a key. The monotonic clock reading is a
 * parameter (`now`), and the lock around both operations is not modelled: each call is one
 * sequential state transition.
 */
module RateLimiting {
  import JavaInt

  const LONG_MAX: int := 0x7FFF_FFFF_FFFF_FFFF
  const LONG_MIN: int := -0x8000_0000_0000_0000

  datatype TimeUnit = Nanoseconds | Microseconds | Milliseconds | Seconds | Minutes | Hours | Days

  /** Milliseconds in one unit, for the units at least as coarse as a millisecond. */
  function MillisPerUnit(unit: TimeUnit): nat
    requires unit !in {Nanoseconds, Microseconds}
  {
    match unit
    case Milliseconds => 1
    case Seconds => 1000
    case Minutes => 60_000
    case Hours => 3_600_000
    case Days => 86_400_000
  }

  /**
   * `TimeUnit.toMillis` on a `long`: finer units divide, truncating toward zero; coarser units
   * multiply, saturating at the `long` bounds.
   */
  function ToMillis(duration: int, unit: TimeUnit): (ms: int)
    requires LONG_MIN <= duration <= LONG_MAX
    ensures LONG_MIN <= ms <= LONG_MAX
    ensures unit == Milliseconds ==> ms == duration
    ensures (duration >= 0) == (ms >= 0) || ms == 0
  {
    match unit
    case Nanoseconds => JavaInt.Quot(duration, 1_000_000)
    case Microseconds => JavaInt.Quot(duration, 1_000)
    case Milliseconds => duration
    case Seconds => Saturated(duration, 1000)
    case Minutes => Saturated(duration, 60_000)
    case Hours => Saturated(duration, 3_600_000)
    case Days => Saturated(duration, 86_400_000)
  }

  /** `duration * m`, or the `long` bound on the side where that product would overflow. */
  function Saturated(duration: int, m: nat): int
    requires 0 < m
  {
    if duration > LONG_MAX / m then LONG_MAX
    else if duration < -(LONG_MAX / m) then LONG_MIN
    else duration * m
  }

  /** A gate with its recorded last-fetch times and its window in milliseconds. */
  datatype RateLimiter<K> = RateLimiter(timestamps: map<K, int>, timeout: int)

  /** The constructor: an `Int` duration in the given unit, converted once to milliseconds. */
  function New<K>(timeout: JavaInt.Int32, unit: TimeUnit): (r: RateLimiter<K>)
    ensures r.timestamps == map[]
    ensures unit !in {Nanoseconds, Microseconds} ==> r.timeout == timeout * MillisPerUnit(unit)
    ensures unit == Microseconds ==> JavaInt.Abs(r.timeout) == JavaInt.Abs(timeout) / 1_000
    ensures unit == Nanoseconds ==> JavaInt.Abs(r.timeout) == JavaInt.Abs(timeout) / 1_000_000
    ensures (timeout < 0 ==> r.timeout <= 0) && (timeout >= 0 ==> r.timeout >= 0)
  {
    IntDurationFitsLong(timeout, unit);
    RateLimiter(map[], ToMillis(timeout, unit))
  }

  /** An `Int` duration converts to milliseconds without saturating. */
  lemma IntDurationFitsLong(duration: JavaInt.Int32, unit: TimeUnit)
    ensures LONG_MIN <= duration <= LONG_MAX
    ensures unit !in {Nanoseconds, Microseconds} ==> ToMillis(duration, unit) == duration * MillisPerUnit(unit)
  {
    assert JavaInt.InRange(duration);
    if unit !in {Nanoseconds, Microseconds} {
      var m := MillisPerUnit(unit);
      assert LONG_MAX / m >= JavaInt.INT_MAX;
    }
  }

  /** The answer of `ShouldFetch` together with the gate it leaves behind. */
  datatype Decision<K> = Decision(fetch: bool, limiter: RateLimiter<K>)

  /**
   * A key never seen, or last granted more than `timeout` ago, is granted and stamped with
   * `now`; otherwise the answer is no and nothing changes.
   */
  function ShouldFetch<K>(rl: RateLimiter<K>, key: K, now: nat): (d: Decision<K>)
    ensures d.limiter.timeout == rl.timeout
    ensures key !in rl.timestamps ==> d.fetch
    ensures key in rl.timestamps ==> (d.fetch <==> now - rl.timestamps[key] > rl.timeout)
    ensures d.fetch ==> d.limiter.timestamps == rl.timestamps[key := now]
    ensures !d.fetch ==> d.limiter == rl
  {
    if key !in rl.timestamps then
      Decision(true, rl.(timestamps := rl.timestamps[key := now]))
    else if now - rl.timestamps[key] > rl.timeout then
      Decision(true, rl.(timestamps := rl.timestamps[key := now]))
    else
      Decision(false, rl)
  }

  /** Forgets one key. */
  function Reset<K>(rl: RateLimiter<K>, key: K): (r: RateLimiter<K>)
    ensures key !in r.timestamps
    ensures r.timeout == rl.timeout
    ensures r.timestamps.Keys == rl.timestamps.Keys - {key}
    ensures forall k :: k in r.timestamps ==> r.timestamps[k] == rl.timestamps[k]
  {
    rl.(timestamps := rl.timestamps - {key})
  }

  /** `ShouldFetch` on one key leaves every other key's entry as it was. */
  lemma ShouldFetchIsolated<K>(rl: RateLimiter<K>, key: K, other: K, now: nat)
    requires other != key
    ensures var r := ShouldFetch(rl, key, now).limiter;
      (other in r.timestamps <==> other in rl.timestamps)
      && (other in rl.timestamps ==> r.timestamps[other] == rl.timestamps[other])
  {
  }

  /** With a non-negative window, asking twice at the same instant grants once, then refuses. */
  lemma SecondCallRefused<K>(rl: RateLimiter<K>, key: K, now: nat)
    requires rl.timeout >= 0 && key !in rl.timestamps
    ensures var first := ShouldFetch(rl, key, now);
      first.fetch && !ShouldFetch(first.limiter, key, now).fetch
  {
  }

  /** After `Reset`, the key is granted at once, as a key never seen. */
  lemma ResetThenGranted<K>(rl: RateLimiter<K>, key: K, now: nat)
    ensures var d := ShouldFetch(Reset(rl, key), key, now);
      d.fetch && d.limiter.timestamps[key] == now
  {
  }

  /** One call on the gate. */
  datatype Op<K> = Fetch(key: K, now: nat) | Forget(key: K)
  {
    function Key(): K
    {
      match this
      case Fetch(k, _) => k
      case Forget(k) => k
    }
  }

  function Apply<K>(rl: RateLimiter<K>, op: Op<K>): RateLimiter<K>
  {
    match op
    case Fetch(k, now) => ShouldFetch(rl, k, now).limiter
    case Forget(k) => Reset(rl, k)
  }

  function Replay<K>(rl: RateLimiter<K>, ops: seq<Op<K>>): RateLimiter<K>
    decreases |ops|
  {
    if |ops| == 0 then rl else Replay(Apply(rl, ops[0]), ops[1..])
  }

  /** Calls on other keys never disturb a key's entry, however many there are. */
  lemma {:induction false} ReplayIsolated<K>(rl: RateLimiter<K>, ops: seq<Op<K>>, key: K)
    requires forall i :: 0 <= i < |ops| ==> ops[i].Key() != key
    ensures var r := Replay(rl, ops);
      r.timeout == rl.timeout
      && (key in r.timestamps <==> key in rl.timestamps)
      && (key in rl.timestamps ==> r.timestamps[key] == rl.timestamps[key])
    decreases |ops|
  {
    if |ops| > 0 {
      var next := Apply(rl, ops[0]);
      assert ops[0].Key() != key;
      assert next.timeout == rl.timeout;
      assert (key in next.timestamps <==> key in rl.timestamps);
      assert key in rl.timestamps ==> next.timestamps[key] == rl.timestamps[key];
      ReplayIsolated(next, ops[1..], key);
    }
  }

  /**
   * Two grants for one key with only calls on other keys in between are more than the window
   * apart: the gate never lets a key refetch within its timeout.
   */
  lemma GrantsAreSpaced<K>(rl: RateLimiter<K>, key: K, t1: nat, between: seq<Op<K>>, t2: nat)
    requires ShouldFetch(rl, key, t1).fetch
    requires forall i :: 0 <= i < |between| ==> between[i].Key() != key
    ensures ShouldFetch(Replay(ShouldFetch(rl, key, t1).limiter, between), key, t2).fetch
        <==> t2 - t1 > rl.timeout
  {
    ReplayIsolated(ShouldFetch(rl, key, t1).limiter, between, key);
  }
}

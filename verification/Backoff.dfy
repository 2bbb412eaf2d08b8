/**
  The delay between repairs: exponential in the repair count modulo `steps`, with a linear jitter,
  in 64-bit arithmetic that wraps around.
 */
module Backoff {

  function Pow2(n: nat): (p: nat)
    ensures p >= 1
  {
    if n == 0 then 1 else 2 * Pow2(n - 1)
  }

  const LIMIT: int := 0x8000_0000_0000_0000

  /** A signed 64-bit result. */
  function Wrap64(x: int): int {
    (x + LIMIT) % (2 * LIMIT) - LIMIT
  }

  /** The delay without jitter before the repair that follows `step` earlier ones. */
  function Base(step: nat, delay: int, steps: nat): int {
    if steps > 0 then Wrap64(Pow2(step % steps) * delay) else delay
  }

  /** Conversion to whole units of time drops the fraction, towards zero. */
  function Truncate(x: real): int {
    if x >= 0.0 then x.Floor else -(-x).Floor
  }

  /** The jitter in whole units of time. */
  function Extra(random: real, jitter: real, delay: int): int {
    Truncate(random * jitter * (delay as real))
  }

  /** `random` is what the random source returns. */
  function RepairDelay(step: nat, delay: int, jitter: real, steps: nat, random: real): int {
    if jitter > 0.0 then Wrap64(Base(step, delay, steps) + Extra(random, jitter, delay))
    else Base(step, delay, steps)
  }

  /** The largest delay of a cycle without jitter. */
  function Top(delay: int, steps: nat): int {
    if steps > 0 then Pow2(steps - 1) * delay else delay
  }

  lemma {:induction false} Pow2Monotone(m: nat, n: nat)
    requires m <= n
    ensures Pow2(m) <= Pow2(n)
    decreases n
  {
    if m < n {
      Pow2Monotone(m, n - 1);
    }
  }

  lemma WrapIsIdentity(x: int)
    ensures Wrap64(x) == x <==> -LIMIT <= x < LIMIT
    ensures LIMIT <= x < 2 * LIMIT ==> Wrap64(x) < 0
  {
  }

  /** Without overflow the delay doubles with each step of a cycle. */
  lemma BaseExact(step: nat, delay: int, steps: nat)
    requires steps > 0 && delay > 0 && Pow2(steps - 1) * delay < LIMIT
    ensures Base(step, delay, steps) == Pow2(step % steps) * delay
    ensures delay <= Base(step, delay, steps) <= Pow2(steps - 1) * delay
  {
    var k := step % steps;
    Pow2Monotone(k, steps - 1);
    Times(1, Pow2(k), delay);
    Times(Pow2(k), Pow2(steps - 1), delay);
    WrapIsIdentity(Pow2(k) * delay);
  }

  lemma Times(a: int, b: int, c: int)
    requires a <= b && c >= 0
    ensures a * c <= b * c
  {
  }

  lemma {:induction false} FirstOverflow(j: nat, delay: int) returns (k: nat)
    requires 0 < delay < LIMIT && Pow2(j) * delay >= LIMIT
    ensures k <= j && LIMIT <= Pow2(k) * delay < 2 * LIMIT
  {
    if Pow2(j - 1) * delay >= LIMIT {
      k := FirstOverflow(j - 1, delay);
    } else {
      k := j;
      assert Pow2(j) * delay == 2 * (Pow2(j - 1) * delay);
    }
  }

  /** The delay never falls below the configured one exactly when the largest step does not overflow. */
  lemma SafeIff(delay: int, steps: nat)
    requires 0 < delay < LIMIT && steps > 0
    ensures (forall step: nat, random :: RepairDelay(step, delay, 0.0, steps, random) >= delay) <==> Pow2(steps - 1) * delay < LIMIT
  {
    if Pow2(steps - 1) * delay < LIMIT {
      forall step: nat, random ensures RepairDelay(step, delay, 0.0, steps, random) >= delay {
        BaseExact(step, delay, steps);
      }
    } else {
      var k := FirstOverflow(steps - 1, delay);
      SmallMod(k, steps);
      WrapIsIdentity(Pow2(k) * delay);
      assert RepairDelay(k, delay, 0.0, steps, 0.0) < delay;
    }
  }

  /**
    Without overflow the delay is exactly 2^(step mod steps) times the configured one, plus the jitter
    rounded down; it doubles with each repair of a cycle.
   */
  lemma DelayExact(step: nat, delay: int, jitter: real, steps: nat, random: real)
    requires delay > 0 && jitter >= 0.0 && 0.0 <= random < 1.0
    requires (Top(delay, steps) as real) + jitter * (delay as real) < LIMIT as real
    ensures var exact := if steps > 0 then Pow2(step % steps) * delay else delay;
            && RepairDelay(step, delay, jitter, steps, random) == exact + (random * jitter * (delay as real)).Floor
            && exact <= RepairDelay(step, delay, jitter, steps, random)
            && RepairDelay(step, delay, jitter, steps, random) as real <= (exact as real) + jitter * (delay as real)
            && (jitter == 0.0 ==> RepairDelay(step, delay, jitter, steps, random) == exact)
  {
    var spread, b, top, extra := jitter * (delay as real), Base(step, delay, steps), Top(delay, steps), Extra(random, jitter, delay);
    JitterBound(random, jitter, delay);
    AddBound(b, top, extra, spread);
    AddBound(b, top, 0, spread);
    BaseBounds(step, delay, steps);
    if steps > 0 {
      BaseExact(step, delay, steps);
    }
    WrapIsIdentity(b + extra);
    ExtraIsFloor(random, jitter, delay);
    assert (b + extra) as real == (b as real) + (extra as real);
  }

  lemma ExtraIsFloor(random: real, jitter: real, delay: int)
    requires delay > 0 && jitter >= 0.0 && 0.0 <= random < 1.0
    ensures Extra(random, jitter, delay) == (random * jitter * (delay as real)).Floor
    ensures jitter == 0.0 ==> Extra(random, jitter, delay) == 0
  {
    Scale(random, jitter, delay as real);
  }

  /** Bounds with jitter, for every value the random source can return. */
  lemma DelayBounds(step: nat, delay: int, jitter: real, steps: nat, random: real)
    requires delay > 0 && jitter >= 0.0 && 0.0 <= random < 1.0
    requires (Top(delay, steps) as real) + jitter * (delay as real) < LIMIT as real
    ensures delay <= RepairDelay(step, delay, jitter, steps, random)
    ensures RepairDelay(step, delay, jitter, steps, random) as real <= (Top(delay, steps) as real) + jitter * (delay as real)
  {
    var spread, b, top, extra := jitter * (delay as real), Base(step, delay, steps), Top(delay, steps), Extra(random, jitter, delay);
    JitterBound(random, jitter, delay);
    AddBound(b, top, 0, spread);
    BaseBounds(step, delay, steps);
    AddBound(b, top, extra, spread);
    WrapIsIdentity(b + extra);
  }

  lemma BaseBounds(step: nat, delay: int, steps: nat)
    requires delay > 0 && Top(delay, steps) < LIMIT
    ensures delay <= Base(step, delay, steps) <= Top(delay, steps)
  {
    if steps > 0 {
      BaseExact(step, delay, steps);
    }
  }

  lemma Scale(x: real, y: real, z: real)
    requires 0.0 <= x < 1.0 && y >= 0.0 && z >= 0.0
    ensures 0.0 <= x * y * z <= y * z
  {
    assert 0.0 <= x * y <= y;
    TimesReal(0.0, x * y, z);
    TimesReal(x * y, y, z);
  }

  lemma TimesReal(a: real, b: real, c: real)
    requires a <= b && c >= 0.0
    ensures a * c <= b * c
  {
  }

  lemma TruncateBound(v: real, w: real)
    requires 0.0 <= v <= w
    ensures 0.0 <= Truncate(v) as real <= w
  {
  }

  lemma JitterBound(random: real, jitter: real, delay: int)
    requires delay > 0 && jitter >= 0.0 && 0.0 <= random < 1.0
    ensures 0.0 <= Extra(random, jitter, delay) as real <= jitter * (delay as real)
  {
    Scale(random, jitter, delay as real);
    TruncateBound(random * jitter * (delay as real), jitter * (delay as real));
  }

  lemma AddBound(b: int, top: int, extra: int, spread: real)
    requires 0.0 <= extra as real <= spread && (top as real) + spread < LIMIT as real
    ensures top < LIMIT
    ensures b <= top ==> b + extra < LIMIT && (b + extra) as real <= (top as real) + spread
  {
    if b <= top {
      assert (b + extra) as real == b as real + extra as real;
    }
  }

  lemma SmallMultiple(m: int, x: int)
    requires m > 0 && -m < m * x < m
    ensures x == 0
  {
    if x >= 1 {
      Times(1, x, m);
    } else if x <= -1 {
      Times(1, -x, m);
    }
  }

  lemma ModShift(k: nat, m: nat)
    requires m > 0
    ensures (k + m) % m == k % m
  {
    var x := k / m + 1 - (k + m) / m;
    assert m * (k / m) + k % m == k && m * ((k + m) / m) + (k + m) % m == k + m;
    assert m * x == m * (k / m) + m - m * ((k + m) / m);
    SmallMultiple(m, x);
  }

  /** With the same random values the sequence repeats every `steps` repairs, overflow or not. */
  lemma Repeats(step: nat, delay: int, steps: nat)
    ensures forall jitter, random :: RepairDelay(step + steps, delay, jitter, steps, random) == RepairDelay(step, delay, jitter, steps, random)
  {
    if steps > 0 {
      ModShift(step, steps);
    }
  }

  /** The sum of n delays without jitter, from the one after `first` repairs on. */
  function Sum(first: nat, n: nat, delay: int, steps: nat): int {
    if n == 0 then 0 else Sum(first, n - 1, delay, steps) + RepairDelay(first + n - 1, delay, 0.0, steps, 0.0)
  }

  lemma SmallMod(k: nat, m: nat)
    requires k < m
    ensures k % m == k
  {
  }

  lemma Doubling(p: int, d: int)
    ensures (2 * p - 1) * d == (p - 1) * d + p * d
  {
  }

  lemma {:induction false} SumFromZero(n: nat, delay: int, steps: nat)
    requires n <= steps && delay > 0 && steps > 0 && Pow2(steps - 1) * delay < LIMIT
    ensures Sum(0, n, delay, steps) == (Pow2(n) - 1) * delay
  {
    if n > 0 {
      SumFromZero(n - 1, delay, steps);
      BaseExact(n - 1, delay, steps);
      var p := Pow2(n - 1);
      SmallMod(n - 1, steps);
      Doubling(p, delay);
    }
  }

  lemma {:induction false} SumShift(first: nat, n: nat, delay: int, steps: nat)
    ensures Sum(first + 1, n, delay, steps) == Sum(first, n, delay, steps) - RepairDelay(first, delay, 0.0, steps, 0.0) + RepairDelay(first + n, delay, 0.0, steps, 0.0)
  {
    if n > 0 {
      SumShift(first, n - 1, delay, steps);
    }
  }

  /** Any `steps` consecutive repairs, wherever they begin, wait (2^steps - 1) times the delay in all. */
  lemma {:induction false} CycleSum(first: nat, delay: int, steps: nat)
    requires delay > 0 && steps > 0 && Pow2(steps - 1) * delay < LIMIT
    ensures Sum(first, steps, delay, steps) == (Pow2(steps) - 1) * delay
    decreases first
  {
    if first == 0 {
      SumFromZero(steps, delay, steps);
    } else {
      CycleSum(first - 1, delay, steps);
      SumShift(first - 1, steps, delay, steps);
      Repeats(first - 1, delay, steps);
    }
  }
}

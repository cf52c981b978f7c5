/**
  RetryWithExponentialBackoff (server/util.go) on top of a token bucket with burst 1 (package
  golang.org/x/time/rate). Times are real numbers of nanoseconds; timers fire exactly on time.
 */
module Retry {

  // ---------- 64-bit durations ----------

  const TWO63: int := 0x8000_0000_0000_0000
  const TWO64: int := 0x1_0000_0000_0000_0000

  function Int64(x: int): int {
    (x + TWO63) % TWO64 - TWO63
  }

  function Pow2(n: nat): (r: int)
    ensures r >= 1
  {
    if n == 0 then 1 else 2 * Pow2(n - 1)
  }

  /** baseDelay * time.Duration(1<<retries), with wrap-around. */
  function Delay(baseDelay: int, retries: nat): int {
    Int64(baseDelay * Int64(Pow2(retries)))
  }

  /** `d` doubled `n` times, without wrap-around. */
  function Doubled(d: int, n: nat): int {
    if n == 0 then d else 2 * Doubled(d, n - 1)
  }

  lemma {:induction false} DoubledIsProduct(d: int, n: nat)
    ensures Doubled(d, n) == d * Pow2(n)
  {
    if n > 0 {
      DoubledIsProduct(d, n - 1);
      assert 2 * (d * Pow2(n - 1)) == d * (2 * Pow2(n - 1));
    }
  }

  lemma {:induction false} DoubledGrows(d: int, m: nat, n: nat)
    requires 0 < d && m <= n
    ensures 0 < Doubled(d, m) <= Doubled(d, n)
  {
    if m < n {
      DoubledGrows(d, m, n - 1);
    } else if n > 0 {
      DoubledGrows(d, m - 1, n - 1);
    }
  }

  /** The delay is baseDelay doubled per failure exactly as long as that fits into 63 bits. */
  lemma {:induction false} DelayDoublesIff(baseDelay: int, retries: nat)
    requires 0 < baseDelay
    ensures Delay(baseDelay, retries) == Doubled(baseDelay, retries) <==> Doubled(baseDelay, retries) < TWO63
  {
    var p := Pow2(retries);
    DoubledIsProduct(baseDelay, retries);
    assert baseDelay * p >= p by { MulAtLeast(baseDelay, p); }
    if baseDelay * p < TWO63 {
      assert Int64(p) == p;
    }
  }

  lemma {:induction false} MulAtLeast(a: int, b: int)
    requires a >= 1 && b >= 0
    ensures a * b >= b
  {
    assert a * b == b + (a - 1) * b;
    assert (a - 1) * b >= 0;
  }

  // ---------- the token bucket ----------

  /** A bucket for one token that refills in `interval`; an interval that is not positive means no limit. */
  datatype Limiter = Limiter(interval: int, tokens: real, last: real)

  function Min(a: real, b: real): real {
    if a <= b then a else b
  }

  function Max(a: real, b: real): real {
    if a >= b then a else b
  }

  /** The tokens at time `t`. */
  function TokensAt(l: Limiter, t: real): real {
    var elapsed := if t < l.last then 0.0 else t - l.last;
    if l.interval <= 0 then if elapsed > 0.0 then 1.0 else Min(1.0, l.tokens)
    else Min(1.0, l.tokens + elapsed / l.interval as real)
  }

  /** Takes a token, which may have to be waited for: the time at which the caller may act. */
  function Reserved(l: Limiter, t: real): (Limiter, real) {
    if l.interval <= 0 then (l, t)
    else
      var tokens := TokensAt(l, t) - 1.0;
      (Limiter(l.interval, tokens, t), if tokens < 0.0 then t - tokens * l.interval as real else t)
  }

  function WithInterval(l: Limiter, t: real, interval: int): Limiter {
    Limiter(interval, TokensAt(l, t), t)
  }

  // ---------- the loop ----------

  /** One call of the operation: whether it succeeds and how long it takes. */
  datatype Attempt = Attempt(succeeds: bool, takes: real)

  datatype Outcome = Done | Interrupted | AllFailed

  /** `interrupted(k)` is whether the context ends the k-th wait. */
  datatype Setting = Setting(start: real, baseDelay: int, attempt: nat -> Attempt, interrupted: nat -> bool)

  datatype Clock = Clock(limiter: Limiter, now: real)

  /** The limiter and the time before the wait for attempt `k`, when all earlier ones failed. */
  function Before(cfg: Setting, k: nat): Clock {
    if k == 0 then Clock(Limiter(cfg.baseDelay, 1.0, cfg.start), cfg.start)
    else Round(Before(cfg, k - 1), cfg.attempt(k - 1).takes, Delay(cfg.baseDelay, k))
  }

  /** One failing attempt: wait, run the operation, then set the next delay. */
  function Round(c: Clock, takes: real, delay: int): Clock {
    var (l, act) := Reserved(c.limiter, c.now);
    Clock(WithInterval(l, act + takes, delay), act + takes)
  }

  function Act(c: Clock): real {
    Reserved(c.limiter, c.now).1
  }

  /** When attempt `k` starts. */
  function StartOf(cfg: Setting, k: nat): real {
    Act(Before(cfg, k))
  }

  /** Attempt `k` fails and the wait before it is not interrupted. */
  predicate FailsAt(cfg: Setting, k: nat) {
    !cfg.interrupted(k) && !cfg.attempt(k).succeeds
  }

  method RetryWithExponentialBackoff(cfg: Setting, maxRetries: int) returns (r: Outcome, starts: seq<real>)
    ensures |starts| <= if maxRetries < 0 then 0 else maxRetries
    ensures forall k :: 0 <= k < |starts| ==> starts[k] == StartOf(cfg, k)
    ensures forall k :: 0 <= k < |starts| - 1 ==> FailsAt(cfg, k)
    ensures match r
      case Done =>
        starts != [] && cfg.attempt(|starts| - 1).succeeds && !cfg.interrupted(|starts| - 1)
      case Interrupted =>
        |starts| < maxRetries && cfg.interrupted(|starts|) && (starts != [] ==> FailsAt(cfg, |starts| - 1))
      case AllFailed =>
        |starts| == (if maxRetries < 0 then 0 else maxRetries) && (starts != [] ==> FailsAt(cfg, |starts| - 1))
  {
    var limiter := Limiter(cfg.baseDelay, 1.0, cfg.start);
    var now := cfg.start;
    var retries := 0;
    starts := [];
    while retries < maxRetries
      invariant 0 <= retries && |starts| == retries && (maxRetries >= 0 ==> retries <= maxRetries)
      invariant maxRetries < 0 ==> retries == 0
      invariant Clock(limiter, now) == Before(cfg, retries)
      invariant forall k :: 0 <= k < retries ==> starts[k] == StartOf(cfg, k) && FailsAt(cfg, k)
    {
      if cfg.interrupted(retries) {
        return Interrupted, starts;
      }
      var (l, act) := Reserved(limiter, now);
      limiter, now := l, act;
      starts := starts + [now];
      now := now + cfg.attempt(retries).takes;
      if cfg.attempt(retries).succeeds {
        return Done, starts;
      }
      retries := retries + 1;
      limiter := WithInterval(limiter, now, Delay(cfg.baseDelay, retries));
    }
    return AllFailed, starts;
  }

  // ---------- the timing ----------

  /** Up to attempt `n` no delay overflows, and calls take no negative time. */
  predicate Fits(cfg: Setting, n: nat) {
    && 0 < cfg.baseDelay && Doubled(cfg.baseDelay, n) < TWO63
    && forall k: nat :: k < n ==> cfg.attempt(k).takes >= 0.0
  }

  lemma {:induction false} FitsBelow(cfg: Setting, m: nat, n: nat)
    requires Fits(cfg, n) && m <= n
    ensures Fits(cfg, m)
  {
    DoubledGrows(cfg.baseDelay, m, n);
  }

  /** The interval while waiting for attempt `k`. */
  function Interval(cfg: Setting, k: nat): real {
    Doubled(cfg.baseDelay, k) as real
  }

  lemma {:induction false} QuotientOfSum(x: real, y: real, p: real)
    requires p > 0.0
    ensures (x * p + y) / p == x + y / p
  {
    var q, z := (x * p + y) / p, y / p;
    assert q * p == x * p + y && z * p == y;
    assert (q - x - z) * p == q * p - x * p - z * p == 0.0;
  }

  /** A clock right before a wait: the bucket was just looked at and is not in debt. */
  predicate Ready(c: Clock) {
    c.limiter.interval > 0 && c.limiter.last == c.now && 0.0 <= c.limiter.tokens <= 1.0
  }

  /** The bucket that a wait leaves behind is in debt for exactly what the caller waits. */
  lemma {:induction false} AfterReserve(c: Clock, takes: real, delay: int)
    requires Ready(c) && takes >= 0.0
    ensures var p := c.limiter.interval as real;
      && Act(c) == c.now + (1.0 - c.limiter.tokens) * p
      && Round(c, takes, delay) == Clock(Limiter(delay, Min(1.0, takes / p), Act(c) + takes), Act(c) + takes)
  {
    var p, debt := c.limiter.interval as real, 1.0 - c.limiter.tokens;
    MulSigns(debt, p);
    assert 0.0 / p == 0.0;
    assert TokensAt(c.limiter, c.now) == c.limiter.tokens;
    assert Act(c) == c.now + debt * p;
    assert Reserved(c.limiter, c.now).0 == Limiter(c.limiter.interval, -debt, c.now);
    QuotientOfSum(debt, takes, p);
    assert (c.now + debt * p + takes) - c.now == debt * p + takes;
  }

  lemma {:induction false} MulSigns(x: real, p: real)
    requires x >= 0.0 && p > 0.0
    ensures x * p >= 0.0 && -x * p == -(x * p) && (x == 0.0 ==> x * p == 0.0)
  {
  }

  lemma {:induction false} RatioBounds(f: real, p: real)
    requires f >= 0.0 && p > 0.0
    ensures f / p >= 0.0 && (f / p <= 1.0 <==> f <= p) && f / p * p == f
  {
  }

  lemma {:induction false} RoundIsReady(c: Clock, takes: real, delay: int)
    requires Ready(c) && takes >= 0.0 && delay > 0
    ensures Ready(Round(c, takes, delay)) && Round(c, takes, delay).limiter.interval == delay
  {
    AfterReserve(c, takes, delay);
    RatioBounds(takes, c.limiter.interval as real);
  }

  /** The gap between the waits of two rounds, when the delay doubles. */
  lemma {:induction false} RoundGap(c: Clock, takes: real, delay: int)
    requires Ready(c) && takes >= 0.0 && delay == 2 * c.limiter.interval
    ensures Act(Round(c, takes, delay)) - Act(c) == Max(takes, delay as real - takes)
  {
    hide Act, Round, Reserved, TokensAt;
    var next := Round(c, takes, delay);
    AfterReserve(c, takes, delay);
    RoundIsReady(c, takes, delay);
    AfterReserve(next, 0.0, delay);
    GapArithmetic(Act(c), Act(next), takes, c.limiter.interval as real, delay as real);
  }

  lemma {:induction false} GapArithmetic(a: real, b: real, f: real, p: real, i: real)
    requires p > 0.0 && f >= 0.0 && i == 2.0 * p
    requires b == a + f + (1.0 - Min(1.0, f / p)) * i
    ensures b - a == Max(f, i - f)
  {
    var q := f / p;
    RatioBounds(f, p);
    if q <= 1.0 {
      assert (1.0 - q) * i == i - 2.0 * (q * p);
    } else {
      assert (1.0 - 1.0) * i == 0.0;
    }
  }

  lemma {:induction false} BeforeIsReady(cfg: Setting, k: nat)
    requires Fits(cfg, k)
    ensures Ready(Before(cfg, k)) && Before(cfg, k).limiter.interval == Doubled(cfg.baseDelay, k)
  {
    if k > 0 {
      FitsBelow(cfg, k - 1, k);
      BeforeIsReady(cfg, k - 1);
      DoubledGrows(cfg.baseDelay, 0, k);
      DelayDoublesIff(cfg.baseDelay, k);
      RoundIsReady(Before(cfg, k - 1), cfg.attempt(k - 1).takes, Delay(cfg.baseDelay, k));
    }
  }

  lemma {:induction false} IntervalDoubles(cfg: Setting, k: nat)
    requires 0 < cfg.baseDelay
    ensures Interval(cfg, k + 1) == 2.0 * Interval(cfg, k) && Interval(cfg, k) > 0.0
  {
    DoubledGrows(cfg.baseDelay, 0, k);
  }

  /**
    The gap between two failing attempts, exactly: the doubled delay less the time the operation took,
    or that time if it is longer.
   */
  lemma {:induction false} Gap(cfg: Setting, k: nat)
    requires Fits(cfg, k + 1)
    ensures var f := cfg.attempt(k).takes;
      StartOf(cfg, k + 1) - StartOf(cfg, k) == Max(f, Interval(cfg, k + 1) - f)
  {
    FitsBelow(cfg, k, k + 1);
    BeforeIsReady(cfg, k);
    DelayDoublesIff(cfg.baseDelay, k + 1);
    RoundGap(Before(cfg, k), cfg.attempt(k).takes, Delay(cfg.baseDelay, k + 1));
  }

  /** However long the operation takes, half the doubled delay passes; all of it when it takes no time. */
  lemma {:induction false} GapBounds(cfg: Setting, k: nat)
    requires Fits(cfg, k + 1)
    ensures StartOf(cfg, k + 1) - StartOf(cfg, k) >= Interval(cfg, k)
    ensures cfg.attempt(k).takes == 0.0 ==> StartOf(cfg, k + 1) - StartOf(cfg, k) == Interval(cfg, k + 1)
  {
    Gap(cfg, k);
    IntervalDoubles(cfg, k);
  }

  /** The lower bound is reached: by an operation that takes just as long as the previous delay. */
  lemma {:induction false} GapBoundReachedIff(cfg: Setting, k: nat)
    requires Fits(cfg, k + 1)
    ensures StartOf(cfg, k + 1) - StartOf(cfg, k) == Interval(cfg, k) <==> cfg.attempt(k).takes == Interval(cfg, k)
  {
    Gap(cfg, k);
    IntervalDoubles(cfg, k);
  }

  /** n + 1 instantly failing attempts span baseDelay * (2^(n+1) - 2). */
  lemma {:induction false} InstantSpan(cfg: Setting, n: nat)
    requires Fits(cfg, n) && forall k: nat :: k < n ==> cfg.attempt(k).takes == 0.0
    ensures StartOf(cfg, n) - StartOf(cfg, 0) == (Doubled(cfg.baseDelay, n + 1) - 2 * cfg.baseDelay) as real
  {
    if n > 0 {
      FitsBelow(cfg, n - 1, n);
      InstantSpan(cfg, n - 1);
      GapBounds(cfg, n - 1);
    }
  }

  // ---------- when the delay does not fit ----------

  /** Without a positive delay there is no limit: the next attempt starts as soon as this one failed. */
  lemma {:induction false} NoDelayNoLimit(cfg: Setting, k: nat)
    requires Delay(cfg.baseDelay, k + 1) <= 0
    ensures StartOf(cfg, k + 1) - StartOf(cfg, k) == cfg.attempt(k).takes
  {
    assert Before(cfg, k + 1) == Round(Before(cfg, k), cfg.attempt(k).takes, Delay(cfg.baseDelay, k + 1));
  }

  lemma {:induction false} Int64Period(x: int, m: int)
    ensures Int64(x + m * TWO64) == Int64(x)
  {
    assert (x + m * TWO64 + TWO63) % TWO64 == (x + TWO63) % TWO64;
  }

  /** The two wrap-arounds of the computation come to one. */
  lemma {:induction false} DelayIsWrapped(baseDelay: int, retries: nat)
    ensures Delay(baseDelay, retries) == Int64(Doubled(baseDelay, retries))
  {
    var p := Pow2(retries);
    var m := (p + TWO63) / TWO64;
    DoubledIsProduct(baseDelay, retries);
    assert Int64(p) == p - m * TWO64;
    assert baseDelay * (p - m * TWO64) == baseDelay * p + (-baseDelay * m) * TWO64;
    Int64Period(baseDelay * p, -baseDelay * m);
  }

  /** The first delay that does not fit wraps to a negative one. */
  lemma {:induction false} FirstOverflowIsNegative(cfg: Setting, k: nat)
    requires Fits(cfg, k) && Doubled(cfg.baseDelay, k + 1) >= TWO63
    ensures Delay(cfg.baseDelay, k + 1) < 0
  {
    DelayIsWrapped(cfg.baseDelay, k + 1);
    assert TWO63 <= Doubled(cfg.baseDelay, k + 1) < TWO64;
    assert (Doubled(cfg.baseDelay, k + 1) + TWO63) % TWO64 == Doubled(cfg.baseDelay, k + 1) + TWO63 - TWO64;
  }

  /**
    While the delays so far fit and the operation is quicker than the delay before it, the back-off
    keeps its bound exactly as long as the next delay fits.
   */
  lemma {:induction false} BackoffKeptIff(cfg: Setting, k: nat)
    requires Fits(cfg, k) && 0.0 <= cfg.attempt(k).takes < Interval(cfg, k)
    ensures StartOf(cfg, k + 1) - StartOf(cfg, k) >= Interval(cfg, k) <==> Doubled(cfg.baseDelay, k + 1) < TWO63
  {
    if Doubled(cfg.baseDelay, k + 1) < TWO63 {
      GapBounds(cfg, k);
    } else {
      FirstOverflowIsNegative(cfg, k);
      NoDelayNoLimit(cfg, k);
    }
  }

  /**
    The next attempt starts as soon as this one failed, without a wait, exactly when the operation took at
    least the delay before it or the next delay does not fit.
   */
  lemma {:induction false} NoWaitIff(cfg: Setting, k: nat)
    requires Fits(cfg, k) && 0.0 <= cfg.attempt(k).takes
    ensures StartOf(cfg, k + 1) - StartOf(cfg, k) == cfg.attempt(k).takes
       <==> cfg.attempt(k).takes >= Interval(cfg, k) || Doubled(cfg.baseDelay, k + 1) >= TWO63
  {
    if Doubled(cfg.baseDelay, k + 1) < TWO63 {
      Gap(cfg, k);
      IntervalDoubles(cfg, k);
    } else {
      FirstOverflowIsNegative(cfg, k);
      NoDelayNoLimit(cfg, k);
    }
  }

  lemma {:induction false} Pow2Splits(m: nat, n: nat)
    ensures Pow2(m + n) == Pow2(m) * Pow2(n)
  {
    if n > 0 {
      Pow2Splits(m, n - 1);
      assert 2 * (Pow2(m) * Pow2(n - 1)) == Pow2(m) * (2 * Pow2(n - 1));
    } else {
      assert Pow2(m) * 1 == Pow2(m);
    }
  }

  lemma {:induction false} Pow63()
    ensures Pow2(63) == TWO63
  {
    assert Pow2(7) == 128 && Pow2(8) == 256;
    hide Pow2;
    Pow2Splits(8, 7);
    Pow2Splits(8, 8);
    Pow2Splits(16, 15);
    Pow2Splits(16, 16);
    Pow2Splits(32, 31);
  }

  /** A shift by 63 leaves the smallest number, or nothing. */
  lemma {:induction false} MultipleOfHalf(c: int)
    ensures Int64(c * TWO63) == if c % 2 == 0 then 0 else -TWO63
  {
    if c % 2 == 0 {
      Int64Period(0, c / 2);
      assert c * TWO63 == c / 2 * TWO64;
    } else {
      Int64Period(TWO63, c / 2);
      assert c * TWO63 == TWO63 + c / 2 * TWO64;
    }
  }

  lemma {:induction false} NoDelayFrom63(baseDelay: int, n: nat)
    requires n >= 63
    ensures Delay(baseDelay, n) == if n == 63 && baseDelay % 2 == 1 then -TWO63 else 0
  {
    assert n > 63 ==> Pow2(n - 63) == 2 * Pow2(n - 64);
    assert Pow2(0) == 1;
    hide Pow2;
    DelayIsWrapped(baseDelay, n);
    DoubledIsProduct(baseDelay, n);
    Pow63();
    Pow2Splits(63, n - 63);
    var p := Pow2(n - 63);
    assert baseDelay * (TWO63 * p) == (baseDelay * p) * TWO63;
    MultipleOfHalf(baseDelay * p);
    if n > 63 {
      assert baseDelay * (2 * Pow2(n - 64)) == 2 * (baseDelay * Pow2(n - 64));
    }
  }

  /** From the 63rd doubling on, and not before, there is no base delay that leaves a delay. */
  lemma {:induction false} NoBaseDelaysIff(n: nat)
    ensures (forall b :: Delay(b, n) <= 0) <==> n >= 63
  {
    if n >= 63 {
      forall b ensures Delay(b, n) <= 0 {
        NoDelayFrom63(b, n);
      }
    } else {
      SmallShift(n);
      DelayIsWrapped(1, n);
      DoubledIsProduct(1, n);
      assert Delay(1, n) == Pow2(n) > 0;
    }
  }

  lemma {:induction false} SmallShift(n: nat)
    requires n < 63
    ensures 0 < Pow2(n) < TWO63
  {
    Pow63();
    assert Pow2(63 - n) == 2 * Pow2(62 - n);
    hide Pow2;
    Pow2Splits(n, 63 - n);
    MulAtLeast(Pow2(62 - n), Pow2(n));
    assert Pow2(n) * (2 * Pow2(62 - n)) == 2 * (Pow2(62 - n) * Pow2(n));
  }

  /** However slow or quick the calls, from the 63rd retry on attempts follow at once. */
  lemma {:induction false} LateRetriesDoNotWait(cfg: Setting, k: nat)
    requires k >= 62
    ensures Delay(cfg.baseDelay, k + 1) == if k == 62 && cfg.baseDelay % 2 == 1 then -TWO63 else 0
    ensures StartOf(cfg, k + 1) - StartOf(cfg, k) == cfg.attempt(k).takes
  {
    NoDelayFrom63(cfg.baseDelay, k + 1);
    NoDelayNoLimit(cfg, k);
  }

  // ---------- every start, whatever the delays ----------

  /** The delay that is set while waiting for attempt `k`. */
  function DelayAt(cfg: Setting, k: nat): int {
    if k == 0 then cfg.baseDelay else Delay(cfg.baseDelay, k)
  }

  /**
    How full the bucket is before that wait: full at first; a call refills it for as long as it takes,
    unless there was no limit, which costs no token and refills it in any time at all.
   */
  function Fill(cfg: Setting, k: nat): real {
    if k == 0 then 1.0
    else
      var (takes, delay) := (cfg.attempt(k - 1).takes, DelayAt(cfg, k - 1));
      if delay > 0 then Min(1.0, takes / delay as real)
      else if takes > 0.0 then 1.0
      else Fill(cfg, k - 1)
  }

  /** How long that wait is: for what is missing of a token. */
  function Wait(cfg: Setting, k: nat): real {
    if DelayAt(cfg, k) <= 0 then 0.0 else (1.0 - Fill(cfg, k)) * DelayAt(cfg, k) as real
  }

  /** All waits and calls before attempt `k` starts. */
  function Elapsed(cfg: Setting, k: nat): real {
    if k == 0 then 0.0 else Elapsed(cfg, k - 1) + cfg.attempt(k - 1).takes + Wait(cfg, k)
  }

  /** A clock before a wait, whatever the interval. */
  predicate Steady(c: Clock) {
    c.limiter.last == c.now && 0.0 <= c.limiter.tokens <= 1.0
  }

  lemma {:induction false} UnlimitedRound(c: Clock, takes: real, delay: int)
    requires Steady(c) && c.limiter.interval <= 0 && takes >= 0.0
    ensures Act(c) == c.now
    ensures Round(c, takes, delay)
         == Clock(Limiter(delay, if takes > 0.0 then 1.0 else c.limiter.tokens, c.now + takes), c.now + takes)
  {
  }

  /** The clock before each wait, exactly, for calls that take no negative time. */
  lemma {:induction false} BeforeIs(cfg: Setting, k: nat)
    requires forall j: nat :: j < k ==> cfg.attempt(j).takes >= 0.0
    ensures var c := Before(cfg, k);
      && Steady(c) && c.limiter.interval == DelayAt(cfg, k) && c.limiter.tokens == Fill(cfg, k)
      && Act(c) == c.now + Wait(cfg, k)
      && c.now + Wait(cfg, k) == cfg.start + Elapsed(cfg, k)
  {
    hide Act, Round, Reserved, TokensAt, Delay;
    if k == 0 {
      FirstWait(cfg);
    } else {
      var (c, takes) := (Before(cfg, k - 1), cfg.attempt(k - 1).takes);
      BeforeIs(cfg, k - 1);
      if c.limiter.interval > 0 {
        AfterReserve(c, takes, Delay(cfg.baseDelay, k));
        RatioBounds(takes, c.limiter.interval as real);
      } else {
        UnlimitedRound(c, takes, Delay(cfg.baseDelay, k));
      }
      ActIs(Before(cfg, k));
    }
  }

  lemma {:induction false} ActIs(c: Clock)
    requires Steady(c)
    ensures Act(c) == c.now
      + if c.limiter.interval <= 0 then 0.0 else (1.0 - c.limiter.tokens) * c.limiter.interval as real
  {
    if c.limiter.interval > 0 {
      AfterReserve(c, 0.0, 1);
    } else {
      UnlimitedRound(c, 0.0, 1);
    }
  }

  lemma {:induction false} FirstWait(cfg: Setting)
    ensures Act(Before(cfg, 0)) == cfg.start && Wait(cfg, 0) == 0.0
  {
    ActIs(Before(cfg, 0));
    assert (1.0 - 1.0) * cfg.baseDelay as real == 0.0;
  }

  /**
    When every attempt starts, for every base delay and any wrapping of the delays: the first at once, and
    each later one after all calls before it and what was missing of a token each time.
   */
  lemma {:induction false} StartIs(cfg: Setting, k: nat)
    requires forall j: nat :: j < k ==> cfg.attempt(j).takes >= 0.0
    ensures StartOf(cfg, k) == cfg.start + Elapsed(cfg, k)
    ensures StartOf(cfg, 0) == cfg.start
  {
    BeforeIs(cfg, k);
    BeforeIs(cfg, 0);
  }
}

/** Randomised, capped exponential retry delays in integer microseconds (retry_backoff.h). */
module RetryBackoff {

  type U32 = x: int | 0 <= x < 0x1_0000_0000

  /** The delays the header documents as supported. */
  predicate Supported(initial: int, cap: int) { 1000 <= initial <= cap <= 1_000_000 }

  /** One growth step by 1.33, rounded to the nearest microsecond and capped. */
  function Grow(delay: nat, cap: nat): nat {
    var d := (delay * 133 + 50) / 100;
    if d > cap then cap else d
  }

  /** The capped delay after `retries` growth steps, before jitter. */
  function Base(initial: nat, cap: nat, retries: nat): nat
    decreases retries
  {
    if retries == 0 then initial else Grow(Base(initial, cap, retries - 1), cap)
  }

  /** The jitter bin of a draw in `[0, randomMax]`. */
  function Bin(draw: nat, randomMax: nat): nat { draw * 8192 / (randomMax + 1) }

  function Jittered(base: nat, bin: nat): int {
    base - base / 5 + bin * (2 * (base / 5)) / 8192
  }

  function Backoff(initial: nat, cap: nat, retries: nat, draw: nat, randomMax: nat): int {
    Jittered(Base(initial, cap, retries), Bin(draw, randomMax))
  }

  lemma MulMonotone(c: nat, m: int, n: int)
    requires m <= n
    ensures c * m <= c * n
  {
  }

  lemma DivMonotone(a: int, b: int, c: int)
    requires c > 0 && a <= b
    ensures a / c <= b / c
  {
    if b / c < a / c {
      MulMonotone(c, b / c + 1, a / c);
      assert false;
    }
  }

  lemma {:induction false} BaseBounds(initial: nat, cap: nat, retries: nat)
    requires Supported(initial, cap)
    ensures initial <= Base(initial, cap, retries) <= cap
  {
    if retries > 0 {
      BaseBounds(initial, cap, retries - 1);
    }
  }

  /** The base never shrinks when a packet has been retried more often. */
  lemma {:induction false} BaseMonotone(initial: nat, cap: nat, m: nat, n: nat)
    requires Supported(initial, cap) && m <= n
    ensures Base(initial, cap, m) <= Base(initial, cap, n)
    decreases n
  {
    if m < n {
      BaseBounds(initial, cap, n - 1);
      BaseMonotone(initial, cap, m, n - 1);
    }
  }

  /** The slowest supported growth dominates a chain that starts at 1000 us. */
  lemma {:induction false} BaseDominates(initial: nat, cap: nat, n: nat)
    requires Supported(initial, cap)
    ensures Base(1000, 1_000_000, n) <= Base(initial, cap, n) || Base(initial, cap, n) == cap
  {
    if n > 0 {
      BaseDominates(initial, cap, n - 1);
      BaseBounds(initial, cap, n - 1);
      BaseBounds(1000, 1_000_000, n - 1);
    }
  }

  lemma SlowestChain()
    ensures Base(1000, 1_000_000, 25) == 1_000_000
  {
    assert Base(1000, 1_000_000, 1) == 1330;
    assert Base(1000, 1_000_000, 2) == 1769;
    assert Base(1000, 1_000_000, 3) == 2353;
    assert Base(1000, 1_000_000, 4) == 3129;
    assert Base(1000, 1_000_000, 5) == 4162;
    assert Base(1000, 1_000_000, 6) == 5535;
    assert Base(1000, 1_000_000, 7) == 7362;
    assert Base(1000, 1_000_000, 8) == 9791;
    assert Base(1000, 1_000_000, 9) == 13022;
    assert Base(1000, 1_000_000, 10) == 17319;
    assert Base(1000, 1_000_000, 11) == 23034;
    assert Base(1000, 1_000_000, 12) == 30635;
    assert Base(1000, 1_000_000, 13) == 40745;
    assert Base(1000, 1_000_000, 14) == 54191;
    assert Base(1000, 1_000_000, 15) == 72074;
    assert Base(1000, 1_000_000, 16) == 95858;
    assert Base(1000, 1_000_000, 17) == 127491;
    assert Base(1000, 1_000_000, 18) == 169563;
    assert Base(1000, 1_000_000, 19) == 225519;
    assert Base(1000, 1_000_000, 20) == 299940;
    assert Base(1000, 1_000_000, 21) == 398920;
    assert Base(1000, 1_000_000, 22) == 530564;
    assert Base(1000, 1_000_000, 23) == 705650;
    assert Base(1000, 1_000_000, 24) == 938515;
  }

  /** Growth has stopped after at most 25 steps, whatever the retry count. */
  lemma GrowthStopsWithin25(initial: nat, cap: nat, retries: nat)
    requires Supported(initial, cap) && retries >= 25
    ensures Base(initial, cap, retries) == cap
  {
    SlowestChain();
    BaseDominates(initial, cap, 25);
    BaseBounds(initial, cap, 25);
    BaseMonotone(initial, cap, 25, retries);
    BaseBounds(initial, cap, retries);
  }

  lemma BinBounds(draw: nat, randomMax: nat)
    requires draw <= randomMax
    ensures Bin(draw, randomMax) < 8192
  {
    DivBelow(draw * 8192, randomMax + 1, 8192);
  }

  lemma DivBelow(x: nat, k: nat, m: nat)
    requires x < k * m
    ensures k > 0 && x / k < m
  {
    var q := x / k;
    assert k * q <= x;
    if q >= m {
      ProductMonotone(k, k, m, q);
    }
  }

  lemma BinMonotone(d: nat, e: nat, randomMax: nat)
    requires d <= e
    ensures Bin(d, randomMax) <= Bin(e, randomMax)
  {
    DivMonotone(d * 8192, e * 8192, randomMax + 1);
  }

  lemma ProductMonotone(a: nat, b: nat, c: nat, d: nat)
    requires a <= b && c <= d
    ensures a * c <= b * d
  {
    assert a * c <= b * c <= b * d;
  }

  lemma JitteredMonotone(b0: nat, b1: nat, x0: nat, x1: nat)
    requires b0 <= b1 && x0 <= x1
    ensures Jittered(b0, x0) <= Jittered(b1, x1)
  {
    ProductMonotone(x0, x1, 2 * (b0 / 5), 2 * (b1 / 5));
  }

  lemma JitteredBounds(base: nat, bin: nat)
    requires base >= 5 && bin < 8192
    ensures base - base / 5 <= Jittered(base, bin) < base + base / 5
  {
    var r := 2 * (base / 5);
    ProductMonotone(bin, 8191, r, r);
    assert bin * r <= 8192 * r - r;
  }

  /** The delay lies in the half-open jitter interval around the capped base. */
  lemma BackoffRange(initial: nat, cap: nat, retries: nat, draw: nat, randomMax: nat)
    requires Supported(initial, cap) && draw <= randomMax
    ensures var d := Base(initial, cap, retries);
            && initial <= d <= cap
            && d - d / 5 <= Backoff(initial, cap, retries, draw, randomMax) < d + d / 5
  {
    BaseBounds(initial, cap, retries);
    BinBounds(draw, randomMax);
    JitteredBounds(Base(initial, cap, retries), Bin(draw, randomMax));
  }

  /** The delay is monotone in the draw and in the retry count. */
  lemma BackoffMonotone(initial: nat, cap: nat, m: nat, n: nat, d: nat, e: nat, randomMax: nat)
    requires Supported(initial, cap) && m <= n && d <= e <= randomMax
    ensures Backoff(initial, cap, m, d, randomMax) <= Backoff(initial, cap, n, e, randomMax)
  {
    BaseMonotone(initial, cap, m, n);
    BinMonotone(d, e, randomMax);
    JitteredMonotone(Base(initial, cap, m), Base(initial, cap, n), Bin(d, randomMax), Bin(e, randomMax));
  }

  /** One growth step in `uint32_t`: every intermediate value is checked to fit. */
  function Grow32(delay: U32, cap: U32): (d: U32)
    requires delay <= cap <= 1_000_000
    ensures d == Grow(delay, cap)
  {
    var scaled: U32 := delay * 133;
    var rounded: U32 := scaled + 50;
    var d: U32 := rounded / 100;
    if d > cap then cap else d
  }

  lemma JitterFits(bin: nat, width: nat)
    requires bin < 8192 && width <= 400_000
    ensures 0 <= bin * width < 0x1_0000_0000
  {
    MulMonotone(width, 0, bin);
    MulMonotone(width, bin, 8191);
    Bounded(width * bin, width);
  }

  lemma Bounded(product: int, width: nat)
    requires 0 <= product <= width * 8191 && width <= 400_000
    ensures 0 <= product < 0x1_0000_0000
  {
  }

  /** The jitter in `uint32_t`: every intermediate value is checked to fit. */
  function Jitter32(d: U32, bin: U32): (delay: U32)
    requires 1000 <= d <= 1_000_000 && bin < 8192
    ensures delay == Jittered(d, bin)
    ensures 800 <= delay < 1_200_000
  {
    JitterFits(bin, 2 * (d / 5));
    JitteredBounds(d, bin);
    var radius: U32 := d / 5;
    var width: U32 := 2 * radius;
    var product: U32 := bin * width;
    d - radius + product / 8192
  }

  /** The loop of the source, in 32-bit arithmetic that is checked never to overflow. */
  method RetryBackoffMicros(randomMax: U32, initial: U32, cap: U32, retries: U32, draw: U32) returns (delay: U32)
    requires Supported(initial, cap) && draw <= randomMax
    ensures delay == Backoff(initial, cap, retries, draw, randomMax)
    ensures 800 <= delay < 1_200_000
  {
    var d: U32 := initial;
    var retry: U32 := 0;
    while retry < retries && d < cap
      invariant 0 <= retry <= retries
      invariant 1000 <= d <= cap
      invariant d == Base(initial, cap, retry)
      decreases retries - retry
    {
      d := Grow32(d, cap);
      retry := retry + 1;
    }
    BaseBounds(initial, cap, retries);
    BaseMonotone(initial, cap, retry, retries);
    BinBounds(draw, randomMax);
    var bin: U32 := Bin(draw, randomMax);
    delay := Jitter32(d, bin);
  }
}

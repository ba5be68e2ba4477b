/** retryDelay of internal/controller/controller.go, with the 64-bit nanoseconds it counts in. */
module Backoff {
  import opened Arith

  const FAILURE_RETRY_BASE := 60_000_000_000

  const TWO_63 := 0x8000_0000_0000_0000
  const TWO_64 := 0x1_0000_0000_0000_0000

  /** The durations an int64 can hold. */
  predicate Int64(x: int) {
    -TWO_63 <= x < TWO_63
  }

  /** What is left of x in 64 signed bits. */
  function Wrap(x: int): (r: int)
    ensures Int64(r) && (Int64(x) ==> r == x)
  {
    (x + TWO_63) % TWO_64 - TWO_63
  }

  function Pow2(k: nat): (p: int)
    ensures p >= 1
  {
    if k == 0 then 1 else 2 * Pow2(k - 1)
  }

  /** The delay after k doublings as the code computes it. */
  ghost function Doubled(k: nat): (d: int)
    ensures Int64(d)
  {
    if k == 0 then FAILURE_RETRY_BASE else Wrap(Doubled(k - 1) * 2)
  }

  /** The loop from k doublings on: stop after failures - 1 of them, or at the interval. */
  ghost function DelayFrom(k: nat, failures: int, interval: int): int
    decreases failures - k
  {
    if k + 1 < failures && Doubled(k) < interval then DelayFrom(k + 1, failures, interval)
    else Min(Doubled(k), interval)
  }

  method RetryDelay(failures: int, interval: int) returns (r: int)
    requires Int64(interval)
    ensures r == DelayFrom(0, failures, interval)
  {
    var delay := FAILURE_RETRY_BASE;
    var i := 1;
    while i < failures && delay < interval
      invariant 1 <= i && delay == Doubled(i - 1)
      invariant DelayFrom(i - 1, failures, interval) == DelayFrom(0, failures, interval)
    {
      delay := Wrap(delay * 2);
      i := i + 1;
    }
    r := Min(delay, interval);
  }

  /** The failures that count: there is no doubling before the second. */
  function Doublings(failures: int): nat {
    if failures <= 1 then 0 else failures - 1
  }

  /** What the comment promises: a minute doubled for each failure after the first, capped at the interval. */
  ghost function Promised(failures: int, interval: int): int {
    Min(FAILURE_RETRY_BASE * Pow2(Doublings(failures)), interval)
  }

  const LAST_EXACT := 8_053_063_680_000_000_000
  const SECOND_PEAK := 9_084_277_218_871_345_152

  // ----- What the doublings reach

  lemma {:induction false} ExactDoublings(k: nat)
    requires k <= 27
    ensures Doubled(k) == FAILURE_RETRY_BASE * Pow2(k) <= LAST_EXACT
    ensures k == 27 ==> Doubled(k) == LAST_EXACT
    decreases k
  {
    PowersTo27(k);
    if k > 0 { ExactDoublings(k - 1); }
  }

  lemma {:induction false} PowersTo27(k: nat)
    requires k <= 27
    ensures Pow2(k) <= 134217728 && (k == 27 ==> Pow2(k) == 134217728)
  {
    PowerGrows(k, 27);
    PowerValue();
  }

  lemma {:induction false} PowerGrows(a: nat, b: nat)
    requires a <= b
    ensures Pow2(a) <= Pow2(b)
  {
    if a < b { PowerGrows(a, b - 1); }
  }

  lemma PowerValue()
    ensures Pow2(27) == 134217728
  {
    assert Pow2(4) == 16;
    assert Pow2(8) == 256;
    assert Pow2(12) == 4096;
    assert Pow2(16) == 65536;
    assert Pow2(20) == 1048576;
    assert Pow2(24) == 16777216;
  }

  /** One doubling, given its value and its wrapped double. */
  lemma OneDoubling(k: nat, value: int, wraps: int)
    requires Doubled(k) == value && Int64(value * 2 - wraps * TWO_64)
    ensures Doubled(k + 1) == value * 2 - wraps * TWO_64
  {
  }

  lemma DoublingsFrom28()
    ensures Doubled(36) == -8902068350939561984
    ensures Doubled(28) < 0 && Doubled(29) < 0 && Doubled(30) == SECOND_PEAK
    ensures forall k :: 31 <= k <= 36 ==> Doubled(k) < SECOND_PEAK
  {
    hide Doubled;
    ExactDoublings(27);
    OneDoubling(27, 8053063680000000000, 1);
    OneDoubling(28, -2340616713709551616, 0);
    OneDoubling(29, -4681233427419103232, -1);
    OneDoubling(30, 9084277218871345152, 1);
    OneDoubling(31, -278189635966861312, 0);
    OneDoubling(32, -556379271933722624, 0);
    OneDoubling(33, -1112758543867445248, 0);
    OneDoubling(34, -2225517087734890496, 0);
    OneDoubling(35, -4451034175469780992, 0);
  }

  lemma DoublingsFrom37()
    requires Doubled(36) == -8902068350939561984
    ensures Doubled(44) == 8466767299456532480
    ensures forall k :: 37 <= k <= 44 ==> Doubled(k) < SECOND_PEAK
  {
    hide Doubled;
    OneDoubling(36, -8902068350939561984, -1);
    OneDoubling(37, 642607371830427648, 0);
    OneDoubling(38, 1285214743660855296, 0);
    OneDoubling(39, 2570429487321710592, 0);
    OneDoubling(40, 5140858974643421184, 1);
    OneDoubling(41, -8165026124422709248, -1);
    OneDoubling(42, 2116691824864133120, 0);
    OneDoubling(43, 4233383649728266240, 0);
  }

  lemma DoublingsFrom45()
    requires Doubled(44) == 8466767299456532480
    ensures Doubled(53) == 0
    ensures forall k :: 45 <= k <= 53 ==> Doubled(k) < SECOND_PEAK
  {
    hide Doubled;
    OneDoubling(44, 8466767299456532480, 1);
    OneDoubling(45, -1513209474796486656, 0);
    OneDoubling(46, -3026418949592973312, 0);
    OneDoubling(47, -6052837899185946624, -1);
    OneDoubling(48, 6341068275337658368, 1);
    OneDoubling(49, -5764607523034234880, -1);
    OneDoubling(50, 6917529027641081856, 1);
    OneDoubling(51, -4611686018427387904, 0);
    OneDoubling(52, -9223372036854775808, -1);
  }

  /** From the 28th doubling on the delay has wrapped; only the 30th comes near the largest interval. */
  lemma WrappedDoublings()
    ensures Doubled(28) < 0 && Doubled(29) < 0 && Doubled(30) == SECOND_PEAK
    ensures forall k :: 31 <= k <= 53 ==> Doubled(k) < SECOND_PEAK
    ensures Doubled(53) == 0
  {
    hide Doubled;
    DoublingsFrom28();
    DoublingsFrom37();
    DoublingsFrom45();
  }

  lemma {:induction false} ExhaustedDoublings(k: nat)
    requires k >= 53
    ensures Doubled(k) == 0
  {
    if k == 53 { WrappedDoublings(); } else { ExhaustedDoublings(k - 1); }
  }

  /** No doubling past the 27th except the 30th reaches an interval above the last exact delay. */
  lemma NeverReaches(k: nat, interval: int)
    requires k >= 28 && interval > LAST_EXACT
    ensures Doubled(k) >= interval ==> Doubled(k) <= SECOND_PEAK
    ensures Doubled(k) < interval || (interval <= SECOND_PEAK && k >= 30)
  {
    hide Doubled;
    WrappedDoublings();
    if k > 53 { ExhaustedDoublings(k); }
  }

  // ----- When the promise is kept

  lemma {:induction false} StopsAt(k: nat, stop: nat, failures: int, interval: int)
    requires k <= stop <= Doublings(failures) && Doubled(stop) >= interval
    ensures DelayFrom(k, failures, interval) == interval
    decreases stop - k
  {
    if Doubled(k) < interval { StopsAt(k + 1, stop, failures, interval); }
  }

  lemma {:induction false} RunsOut(k: nat, failures: int, interval: int)
    requires k <= Doublings(failures) && forall j :: k <= j <= Doublings(failures) ==> Doubled(j) < interval
    ensures DelayFrom(k, failures, interval) == Doubled(Doublings(failures))
    decreases failures - k
  {
    if k + 1 < failures { RunsOut(k + 1, failures, interval); }
  }

  /** The doubling does not wrap before it stops, or wraps to where it started. */
  predicate NoWrap(failures: int, interval: int) {
    failures <= 28 || interval <= LAST_EXACT || (failures >= 31 && interval <= SECOND_PEAK)
  }

  /** The delay is the promised one for every interval up to 255 years, and beyond that for the first 28
      failures, and again from the 31st on where the wrapped 30th doubling happens to reach it. */
  lemma RetryDelayExact(failures: int, interval: int)
    requires Int64(interval)
    ensures DelayFrom(0, failures, interval) == Promised(failures, interval) <==> NoWrap(failures, interval)
  {
    var n := Doublings(failures);
    if n <= 27 {
      FewFailures(failures, interval);
    } else if interval <= LAST_EXACT {
      ExactDoublings(27);
      StopsAt(0, 27, failures, interval);
      PromiseIsInterval(failures, interval);
    } else {
      ManyFailures(failures, interval);
    }
  }

  lemma FewFailures(failures: int, interval: int)
    requires failures <= 28
    ensures DelayFrom(0, failures, interval) == Promised(failures, interval)
  {
    hide Doubled;
    var n := Doublings(failures);
    ExactDoublings(n);
    if Doubled(n) >= interval {
      StopsAt(0, n, failures, interval);
    } else {
      forall j | 0 <= j <= n ensures Doubled(j) < interval {
        ExactDoublings(j);
        PowerGrows(j, n);
      }
      RunsOut(0, failures, interval);
    }
  }

  lemma PromiseIsInterval(failures: int, interval: int)
    requires Doublings(failures) >= 28 && interval < TWO_63
    ensures Promised(failures, interval) == interval
  {
    PowerGrows(28, Doublings(failures));
    PowerValue();
    assert Pow2(28) == 2 * Pow2(27);
  }

  lemma ManyFailures(failures: int, interval: int)
    requires Int64(interval) && failures >= 29 && interval > LAST_EXACT
    ensures DelayFrom(0, failures, interval) == Promised(failures, interval) <==>
            failures >= 31 && interval <= SECOND_PEAK
  {
    hide Doubled, Pow2;
    var n := Doublings(failures);
    PromiseIsInterval(failures, interval);
    if failures >= 31 && interval <= SECOND_PEAK {
      WrappedDoublings();
      StopsAt(0, 30, failures, interval);
    } else {
      forall j | 0 <= j <= n ensures Doubled(j) < interval {
        if j <= 27 { ExactDoublings(j); } else { NeverReaches(j, interval); }
      }
      RunsOut(0, failures, interval);
    }
  }

  /** The first failure past that: with the longest interval the 29th delay is negative, due before it began. */
  lemma NegativeDelay()
    ensures DelayFrom(0, 29, TWO_63 - 1) < 0 < Promised(29, TWO_63 - 1)
  {
    hide DelayFrom, Doubled;
    WrappedDoublings();
    forall j | 0 <= j <= 28 ensures Doubled(j) < TWO_63 - 1 {
      if j <= 27 { ExactDoublings(j); }
    }
    RunsOut(0, 29, TWO_63 - 1);
    PromiseIsInterval(29, TWO_63 - 1);
  }
}

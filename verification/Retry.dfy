/** Retrying with exponential backoff (retry/retry.go), in 64-bit arithmetic that wraps. */
module Retry {
  import opened Prelude
  import opened Arithmetic

  datatype Error = Failure(code: int)

  datatype Helper = Helper(backoff: int64, retries: int64, delay: int64, maxDelay: int64, maxJitter: int64)

  function Power(x: int, n: nat): int {
    if n == 0 then 1 else x * Power(x, n - 1)
  }

  // The product of two machine integers.
  function Times(a: int, b: int): int64 {
    AsInt64(a * b)
  }

  lemma {:induction false} PowerWraps(a: int, x: int, n: nat)
    ensures AsInt64(a * Power(AsInt64(x), n)) == AsInt64(a * Power(x, n))
    decreases n
  {
    if n > 0 {
      hide AsInt64;
      var w := AsInt64(x);
      var rest, rest' := Power(x, n - 1), Power(w, n - 1);
      PowerWraps(a * w, x, n - 1);
      MulWrapsRight(a * rest, x);
      hide Power;
      Regroup(a, w, rest');
      Regroup(a, w, rest);
      Regroup(a, x, rest);
    }
  }

  lemma Regroup(a: int, w: int, p: int)
    ensures a * (w * p) == (a * w) * p == (a * p) * w
  {
  }

  lemma {:induction false} PowerSquare(x: int, n: nat)
    ensures Power(x * x, n) == Power(x, 2 * n)
  {
    if n > 0 {
      PowerSquare(x, n - 1);
      assert Power(x, 2 * n) == x * Power(x, 2 * n - 1) == x * (x * Power(x, 2 * n - 2));
      assert x * (x * Power(x, 2 * n - 2)) == (x * x) * Power(x, 2 * n - 2);
    }
  }

  // One turn of the squaring loop keeps r * x^y modulo 2^64.
  lemma SquaringStep(r: int64, x: int64, y: nat)
    requires y > 0
    ensures var r' := if y % 2 != 0 then Times(r, x) else r;
            Times(r', Power(Times(x, x), y / 2)) == Times(r, Power(x, y))
  {
    hide AsInt64;
    var half := y / 2;
    var r' := if y % 2 != 0 then Times(r, x) else r;
    PowerWraps(r', x * x, half);
    PowerSquare(x, half);
    var p := Power(x, 2 * half);
    if y % 2 != 0 {
      MulWraps(r * x, p);
      assert Power(x, y) == x * p;
      Regroup(r, x, p);
    }
  }

  lemma TimesOne(x: int)
    ensures Times(1, x) == Times(x, 1) == AsInt64(x)
    ensures -TWO_63 <= x < TWO_63 ==> AsInt64(x) == x
  {
  }

  /** pow by squaring: the power modulo 2^64 for every base and exponent, so the power
      itself whenever that fits; 1 for a negative exponent. */
  method Pow(x0: int64, y0: int64) returns (r: int64)
    ensures r == AsInt64(Power(x0, Max(0, y0)))
    ensures y0 >= 0 && -TWO_63 <= Power(x0, y0) < TWO_63 ==> r == Power(x0, y0)
  {
    hide AsInt64, Times;
    var x, y := x0, y0;
    ghost var goal := Power(x0, Max(0, y0));
    r := 1;
    TimesOne(goal);
    while y > 0
      invariant Times(r, Power(x, Max(0, y))) == AsInt64(goal)
      decreases y
    {
      SquaringStep(r, x, y);
      if y % 2 != 0 {
        r := Times(r, x);
      }
      y := y / 2;
      x := Times(x, x);
    }
    TimesOne(r);
  }

  // ---- Delays ------------------------------------------------------------------------------

  // The delay before retry k, counted from 1, without jitter: Delay * Backoff^(k-1).
  function Planned(h: Helper, k: nat): int64
    requires k >= 1
  {
    Times(h.delay, Power(h.backoff, k - 1))
  }

  lemma PlannedFirst(h: Helper)
    ensures Planned(h, 1) == h.delay
  {
  }

  lemma PlannedNext(h: Helper, k: nat)
    requires k >= 1
    ensures Planned(h, k + 1) == Times(Planned(h, k), h.backoff)
  {
    hide AsInt64;
    var p := Power(h.backoff, k - 1);
    assert Power(h.backoff, k) == h.backoff * p;
    assert h.delay * (h.backoff * p) == (h.delay * p) * h.backoff;
    MulWraps(h.delay * p, h.backoff);
  }

  // The longest time one retry may wait.
  function Longest(h: Helper): int {
    Max(0, h.maxDelay + Max(0, h.maxJitter))
  }

  // A draw below MaxJitter; no draw is made when that is not positive.
  ghost predicate Draw(h: Helper, draw: int64) {
    h.maxJitter > 0 ==> 0 <= draw < h.maxJitter
  }

  function WithJitter(h: Helper, delay: int64, draw: int64): (d: int64)
    ensures Draw(h, draw) ==> Max(0, d) <= Longest(h)
    ensures Draw(h, draw) && h.maxJitter > 0 && Min(delay, h.maxDelay) + draw < TWO_63 ==> d == Min(delay, h.maxDelay) + draw
    ensures h.maxJitter <= 0 ==> d <= delay && d <= h.maxDelay && (d == delay || d == h.maxDelay)
  {
    var sum := (if delay > h.maxDelay then h.maxDelay else delay) + (if h.maxJitter > 0 then draw else 0);
    WrapsDown(sum);
    hide AsInt64;
    AsInt64(sum)
  }

  // A sum that does not wrap below is never above its exact value.
  lemma WrapsDown(x: int)
    ensures x >= -TWO_63 ==> AsInt64(x) <= x
    ensures -TWO_63 <= x < TWO_63 ==> AsInt64(x) == x
  {
    assert x / TWO_64 * TWO_64 + x % TWO_64 == x;
  }

  // The time spent in timeAfter: nothing for a delay that is not positive.
  function TotalWait(delays: seq<int64>): int {
    if delays == [] then 0 else TotalWait(delays[..|delays| - 1]) + Max(0, delays[|delays| - 1])
  }

  lemma {:induction false} WaitBound(h: Helper, delays: seq<int64>, n: nat)
    requires |delays| <= n
    requires forall k :: 0 <= k < |delays| ==> Max(0, delays[k]) <= Longest(h)
    ensures TotalWait(delays) <= n * Longest(h)
  {
    if delays != [] {
      WaitBound(h, delays[..|delays| - 1], n - 1);
      assert n * Longest(h) == (n - 1) * Longest(h) + Longest(h);
    } else {
      assert 0 <= n * Longest(h);
    }
  }

  // ---- The two retry helpers -----------------------------------------------------------------

  /** Whether retrying ends at call k, counted from 0: it succeeded, failed for good,
      used up the retries, or the close signal came before its timer. */
  ghost predicate EndsAt(h: Helper, f: nat -> Option<Error>, canRetry: Error -> bool, closes: nat -> bool, k: nat) {
    f(k).None? || !canRetry(f(k).value) || k >= h.retries || closes(k)
  }

  /** RetryFunc: f is called retries + 1 times, up to the first call that ends it; the
      delay before retry k is the closed form RetryAttempt uses; the whole wait is
      bounded by the number of retries allowed times the longest one. `calls` and
      `delays` record the calls of f and timeAfter. */
  method RetryFunc(h: Helper, f: nat -> Option<Error>, canRetry: Error -> bool, closes: nat -> bool, draws: nat -> int64)
    returns (retries: nat, err: Option<Error>, calls: nat, delays: seq<int64>)
    requires forall k :: Draw(h, draws(k))
    ensures calls == retries + 1 && err == f(retries)
    ensures retries <= Max(0, h.retries)
    ensures EndsAt(h, f, canRetry, closes, retries)
    ensures forall k :: 0 <= k < retries ==> !EndsAt(h, f, canRetry, closes, k)
    ensures forall k :: 0 <= k < retries ==> f(k).Some? && canRetry(f(k).value) && !closes(k)
    ensures err.Some? && canRetry(err.value) && !closes(retries) ==> h.retries <= retries
    ensures retries <= |delays| <= Max(0, h.retries)
    ensures |delays| == retries || (|delays| == retries + 1 && closes(retries))
    ensures forall k :: 0 <= k < |delays| ==> delays[k] == WithJitter(h, Planned(h, k + 1), draws(k))
    ensures TotalWait(delays) <= Max(0, h.retries) * Longest(h)
  {
    hide Longest, WithJitter, AsInt64, Times, Planned, TotalWait;
    retries, err, calls, delays := 0, None, 0, [];
    var retryDelay := h.delay;
    PlannedFirst(h);
    var ok := true;
    while ok
      invariant ok ==> calls == retries == |delays| && retryDelay == Planned(h, retries + 1)
      invariant retries <= Max(0, h.retries)
      invariant !ok ==> calls == retries + 1 && err == f(retries) && EndsAt(h, f, canRetry, closes, retries)
      invariant forall k :: 0 <= k < retries ==> !EndsAt(h, f, canRetry, closes, k)
      invariant retries <= |delays| <= Max(0, h.retries)
      invariant |delays| == retries || (|delays| == retries + 1 && closes(retries))
      invariant forall k :: 0 <= k < |delays| ==> delays[k] == WithJitter(h, Planned(h, k + 1), draws(k))
      decreases ok, Max(0, h.retries) - retries
    {
      err := f(calls);
      calls := calls + 1;
      if err.None? || !canRetry(err.value) || retries >= h.retries {
        break;
      }
      delays := delays + [WithJitter(h, retryDelay, draws(retries))];
      if closes(retries) {
        ok := false;
      } else {
        PlannedNext(h, retries + 1);
        retries := retries + 1;
        retryDelay := Times(retryDelay, h.backoff);
      }
    }
    forall k | 0 <= k < |delays| ensures Max(0, delays[k]) <= Longest(h) {
      assert Draw(h, draws(k));
    }
    WaitBound(h, delays, Max(0, h.retries));
    GoesOnUntil(h, f, canRetry, closes, retries);
    hide EndsAt;
  }

  // What not ending at a call means, and why the last one did.
  lemma GoesOnUntil(h: Helper, f: nat -> Option<Error>, canRetry: Error -> bool, closes: nat -> bool, n: nat)
    requires EndsAt(h, f, canRetry, closes, n) && forall k :: 0 <= k < n ==> !EndsAt(h, f, canRetry, closes, k)
    ensures forall k :: 0 <= k < n ==> f(k).Some? && canRetry(f(k).value) && !closes(k)
    ensures f(n).Some? && canRetry(f(n).value) && !closes(n) ==> h.retries <= n
  {
    forall k | 0 <= k < n ensures f(k).Some? && canRetry(f(k).value) && !closes(k) {
      assert !EndsAt(h, f, canRetry, closes, k);
    }
  }

  lemma LessOne(x: int64)
    ensures AsInt64(x - 1) == if x == -TWO_63 then TWO_63 - 1 else x - 1
  {
  }

  /** RetryAttempt: for callers that count attempts themselves. For the smallest integer
      attempt - 1 wraps to the largest. */
  method RetryAttempt(h: Helper, attempt: int64, multiplier: int64, canRetry: bool, closes: bool, draw: int64)
    returns (delay: int64, ok: bool)
    requires Draw(h, draw)
    ensures ok <==> attempt <= Times(h.retries, multiplier) && canRetry && !closes
    ensures attempt <= Times(h.retries, multiplier) && canRetry ==>
              delay == WithJitter(h, Planned(h, if attempt == -TWO_63 then TWO_63 else Max(1, attempt)), draw)
    ensures attempt > Times(h.retries, multiplier) || !canRetry ==> delay == 0
  {
    hide AsInt64, WithJitter, Power;
    if attempt > Times(h.retries, multiplier) {
      return 0, false;
    }
    if !canRetry {
      return 0, false;
    }
    LessOne(attempt);
    var factor := Pow(h.backoff, AsInt64(attempt - 1));
    MulWrapsRight(h.delay, Power(h.backoff, Max(0, AsInt64(attempt - 1))));
    delay := WithJitter(h, Times(h.delay, factor), draw);
    ok := !closes;
  }

  /** The k-th delay of RetryFunc is what RetryAttempt computes for attempt k, and it is
      the textbook Delay * Backoff^(k-1) as long as that fits in 64 bits. */
  lemma PlannedIsExact(h: Helper, k: nat)
    requires k >= 1
    ensures Planned(h, k) == h.delay * Power(h.backoff, k - 1) <==>
            -TWO_63 <= h.delay * Power(h.backoff, k - 1) < TWO_63
  {
  }
}

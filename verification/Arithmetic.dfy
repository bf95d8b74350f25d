/** Signed 64-bit arithmetic that wraps: a sum or product may be cut to 64 bits at any
    point without changing the result. */
module Arithmetic {
  import opened Prelude

  function Max(a: int, b: int): int {
    if a < b then b else a
  }

  function Min(a: int, b: int): int {
    if a < b then a else b
  }

  lemma WrapAway(x: int, k: int)
    ensures AsInt64(x + k * TWO_64) == AsInt64(x)
  {
    var q, r := x / TWO_64, x % TWO_64;
    assert x + k * TWO_64 == (q + k) * TWO_64 + r;
    QuotientUnique(q + k, r);
  }

  lemma QuotientUnique(q: int, r: uint64)
    ensures (q * TWO_64 + r) % TWO_64 == r
  {
    var x := q * TWO_64 + r;
    assert x == (x / TWO_64) * TWO_64 + x % TWO_64;
  }

  lemma WrapDiffers(x: int) returns (k: int)
    ensures AsInt64(x) == x + k * TWO_64
  {
    k := -(x / TWO_64);
    if x % TWO_64 >= TWO_63 {
      k := k - 1;
    }
  }

  lemma MulWraps(a: int, b: int)
    ensures AsInt64(AsInt64(a) * b) == AsInt64(a * b)
  {
    var k := WrapDiffers(a);
    assert (a + k * TWO_64) * b == a * b + (k * b) * TWO_64;
    WrapAway(a * b, k * b);
  }

  lemma MulWrapsRight(a: int, b: int)
    ensures AsInt64(a * AsInt64(b)) == AsInt64(a * b)
  {
    MulWraps(b, a);
    assert b * a == a * b && AsInt64(b) * a == a * AsInt64(b);
  }

  lemma InRange(x: int64)
    ensures AsInt64(x) == x
  {
  }

  lemma AddWraps(a: int, b: int)
    ensures AsInt64(AsInt64(a) + b) == AsInt64(a + b)
  {
    var k := WrapDiffers(a);
    WrapAway(a + b, k);
  }
}

/** Base 128 varints: the writer, the size computation and the reader of
    log_message.pb.go, over the byte sequence that a value stands for. */
module Varint {
  import opened Prelude

  /** The Protocol Buffers encoding of `v`: groups of seven bits, lowest group
      first, with the high bit set on every byte but the last. */
  function VarintBytes(v: nat): (b: bytes)
    ensures |b| >= 1
  {
    if v < 128 then [v] else [v % 128 + 128] + VarintBytes(v / 128)
  }

  function Pow2(n: nat): (p: nat)
    ensures p >= 1
  {
    if n == 0 then 1 else 2 * Pow2(n - 1)
  }

  /** The bytes of a varint without the recursion: byte k holds bits 7k to 7k + 6 of the
      value, with the high bit set on all bytes but the last, and no byte is wasted. */
  lemma VarintDigits(v: nat, k: nat)
    requires k < |VarintBytes(v)|
    ensures var b := VarintBytes(v);
            && b[k] == v / Pow2(7 * k) % 128 + (if k < |b| - 1 then 128 else 0)
            && v < Pow2(7 * |b|)
            && (|b| > 1 ==> v >= Pow2(7 * (|b| - 1)))
  {
    VarintDigit(v, k);
    VarintBounds(v);
  }

  // The k-th group of seven bits.
  ghost function Group(v: nat, k: nat): nat {
    v / Pow2(7 * k) % 128
  }

  lemma GroupZero(v: nat)
    ensures Group(v, 0) == v % 128
  {
    NoShift();
  }

  lemma GroupNext(v: nat, k: nat)
    requires k > 0
    ensures Group(v, k) == Group(v / 128, k - 1)
  {
    Pow2Group(7 * (k - 1));
    DivideTwice(v, Pow2(7 * (k - 1)));
  }

  lemma {:induction false} VarintDigit(v: nat, k: nat)
    requires k < |VarintBytes(v)|
    ensures VarintBytes(v)[k] == Group(v, k) + (if k < |VarintBytes(v)| - 1 then 128 else 0)
    decreases k
  {
    hide Group;
    if k == 0 {
      GroupZero(v);
    } else {
      VarintDigit(v / 128, k - 1);
      GroupNext(v, k);
    }
  }

  lemma NoShift()
    ensures Pow2(0) == 1
  {
  }

  lemma {:induction false} VarintBounds(v: nat)
    ensures var n := |VarintBytes(v)|; v < Pow2(7 * n) && (n > 1 ==> v >= Pow2(7 * (n - 1)))
    decreases v
  {
    hide Pow2;
    NoShift();
    Pow2Group(0);
    if v >= 128 {
      var n := |VarintBytes(v / 128)|;
      VarintBounds(v / 128);
      Pow2Group(7 * n);
      if n > 1 {
        Pow2Group(7 * (n - 1));
      }
    }
  }

  lemma DivideTwice(v: nat, p: nat)
    requires p > 0
    ensures v / 128 / p == v / (128 * p)
  {
    var q, r := v / 128, v % 128;
    var s, t := q / p, q % p;
    assert q == s * p + t;
    assert v == s * (128 * p) + (128 * t + r);
    QuotientOf(v, s, 128 * t + r, 128 * p);
  }

  lemma QuotientOf(x: nat, q: nat, r: nat, m: nat)
    requires m > 0 && x == q * m + r && r < m
    ensures x / m == q
  {
    RemainderUnique(x, q, r, m);
    assert (x / m) * m == q * m;
  }

  // k groups of seven bits are enough for every value below 2^(7k).
  lemma {:induction false} VarintLength(v: nat, k: nat)
    requires k >= 1 && v < Pow2(7 * k)
    ensures |VarintBytes(v)| <= k
  {
    if v >= 128 {
      Pow2Group(7 * (k - 1));
      VarintLength(v / 128, k - 1);
    }
  }

  lemma Pow2Group(n: nat)
    ensures Pow2(n + 7) == 128 * Pow2(n)
  {
    assert Pow2(n + 7) == 2 * Pow2(n + 6) == 4 * Pow2(n + 5) == 8 * Pow2(n + 4);
    assert Pow2(n + 4) == 2 * Pow2(n + 3) == 4 * Pow2(n + 2) == 8 * Pow2(n + 1);
  }

  /** No 64-bit value takes more than ten bytes: the scratch buffer of packed
      integers, ten bytes per element, never overflows. */
  lemma VarintAtMostTen(v: uint64)
    ensures 1 <= |VarintBytes(v)| <= 10
  {
    assert Pow2(70) > TWO_64 by {
      assert Pow2(0) == 1;
      Pow2Group(0); Pow2Group(7); Pow2Group(14); Pow2Group(21); Pow2Group(28);
      Pow2Group(35); Pow2Group(42); Pow2Group(49); Pow2Group(56); Pow2Group(63);
    }
    VarintLength(v, 10);
  }

  /** sovLogMessage: counts the bytes without writing them. */
  method SizeOfVarint(v: uint64) returns (n: nat)
    ensures n == |VarintBytes(v)|
  {
    n := 1;
    var x := v / 128;
    while x != 0
      invariant 0 <= x
      invariant |VarintBytes(v)| == if x == 0 then n else n + |VarintBytes(x)|
    {
      n := n + 1;
      x := x / 128;
    }
  }

  /** encodeVarintLogMessage: writes `v` at `offset` and returns the offset
      just after it. */
  method WriteVarint(data: array<byte>, offset: nat, v: uint64) returns (next: nat)
    requires offset + |VarintBytes(v)| <= data.Length
    modifies data
    ensures next == offset + |VarintBytes(v)|
    ensures data[..] == Put(old(data[..]), offset, VarintBytes(v))
  {
    hide Put;
    var rest, at := v, offset;
    ghost var done: bytes := [];
    PutNothing(data[..], offset);
    while rest >= 128
      invariant 0 <= rest < TWO_64 && at == offset + |done|
      invariant done + VarintBytes(rest) == VarintBytes(v)
      invariant at + |VarintBytes(rest)| <= data.Length
      invariant data[..] == Put(old(data[..]), offset, done)
    {
      PutByte(data[..], at, rest % 128 + 128);
      data[at] := rest % 128 + 128;
      PutPut(old(data[..]), offset, done, [rest % 128 + 128]);
      done := done + [rest % 128 + 128];
      rest := rest / 128;
      at := at + 1;
    }
    PutByte(data[..], at, rest);
    data[at] := rest;
    PutPut(old(data[..]), offset, done, [rest]);
    next := at + 1;
  }

  lemma PutByte(s: bytes, at: nat, b: byte)
    requires at < |s|
    ensures Put(s, at, [b]) == s[at := b]
  {
  }

  /** What a reader sees at index `i`: the value of the varint that starts
      there, of any length, and the index after it; None when the data ends
      inside it. */
  function ReadVarint(data: bytes, i: nat): (r: Option<(nat, nat)>)
    ensures r.Some? ==> i < r.value.1 <= |data|
    decreases |data| - i
  {
    if i >= |data| then None
    else if data[i] < 128 then Some((data[i], i + 1))
    else match ReadVarint(data, i + 1)
      case None => None
      case Some((v, j)) => Some((data[i] - 128 + 128 * v, j))
  }

  /** Reading what was written gives the value back, whatever follows. */
  lemma {:induction false} VarintRoundTrip(data: bytes, i: nat, v: nat)
    requires At(data, i, VarintBytes(v))
    ensures ReadVarint(data, i) == Some((v, i + |VarintBytes(v)|))
    decreases v
  {
    if v < 128 {
      assert data[i] == data[i..i + 1][0];
    } else {
      AtSplit(data, i, [v % 128 + 128], VarintBytes(v / 128));
      assert data[i] == data[i..i + 1][0];
      VarintRoundTrip(data, i + 1, v / 128);
    }
  }

  // Bitwise or on words of n bits.
  function Or(a: nat, b: nat, n: nat): nat {
    if n == 0 then 0 else (if a % 2 + b % 2 > 0 then 1 else 0) + 2 * Or(a / 2, b / 2, n - 1)
  }

  function Shifted(group: nat, shift: nat): nat {
    if shift == 0 then group else 2 * Shifted(group, shift - 1)
  }

  lemma {:induction false} ShiftedIsProduct(group: nat, shift: nat)
    ensures Shifted(group, shift) == group * Pow2(shift)
  {
    if shift > 0 {
      ShiftedIsProduct(group, shift - 1);
      assert group * (2 * Pow2(shift - 1)) == 2 * (group * Pow2(shift - 1));
    }
  }

  // On n-bit words, or-ing the two is adding them.
  ghost predicate OrAdds(a: nat, b: nat, n: nat) {
    Or(a % Pow2(n), b % Pow2(n), n) == (a + b) % Pow2(n)
  }

  /** Or-ing a shifted group into an accumulator whose set bits all lie below the shift
      is adding it, on words of any width and with bits beyond the width cut off. */
  lemma {:induction false} OrIsAdd(acc: nat, group: nat, shift: nat, n: nat)
    requires acc < Pow2(shift)
    ensures OrAdds(acc, Shifted(group, shift), n)
    decreases n
  {
    hide OrAdds;
    if n == 0 {
      NoBits(acc, Shifted(group, shift));
    } else if shift == 0 {
      OrZero(group, n);
    } else {
      OrIsAdd(acc / 2, group, shift - 1, n - 1);
      OrHalves(acc, Shifted(group, shift - 1), n);
    }
  }

  lemma NoBits(a: nat, b: nat)
    ensures OrAdds(a, b, 0)
  {
    assert Pow2(0) == 1;
  }

  lemma OrZero(b: nat, n: nat)
    ensures OrAdds(0, b, n)
  {
    OrOfZero(b % Pow2(n), n);
  }

  lemma {:induction false} OrOfZero(b: nat, n: nat)
    requires b < Pow2(n)
    ensures Or(0, b, n) == b
  {
    if n > 0 {
      OrOfZero(b / 2, n - 1);
    }
  }

  lemma OrHalves(acc: nat, half: nat, n: nat)
    requires n > 0 && OrAdds(acc / 2, half, n - 1)
    ensures OrAdds(acc, 2 * half, n)
  {
    hide Pow2;
    HalfMod(acc, n);
    HalfMod(2 * half, n);
    HalfMod(acc + 2 * half, n);
    Halves(acc, half);
  }

  lemma Halves(acc: nat, half: nat)
    ensures (2 * half) % 2 == 0 && (2 * half) / 2 == half
    ensures (acc + 2 * half) % 2 == acc % 2 && (acc + 2 * half) / 2 == acc / 2 + half
  {
  }

  // Cutting to a width keeps the lowest bit and cuts the rest.
  lemma HalfMod(x: nat, n: nat)
    requires n > 0
    ensures x % Pow2(n) % 2 == x % 2 && x % Pow2(n) / 2 == (x / 2) % Pow2(n - 1)
    ensures x % Pow2(n) == x % 2 + 2 * ((x / 2) % Pow2(n - 1))
  {
    HalfRemainder(x, Pow2(n - 1));
  }

  lemma HalfRemainder(x: nat, m: nat)
    requires m > 0
    ensures x % (2 * m) == x % 2 + 2 * (x / 2 % m)
  {
    var q, r := x / 2 / m, x / 2 % m;
    assert x / 2 == q * m + r;
    assert x == q * (2 * m) + (2 * r + x % 2);
    RemainderUnique(x, q, 2 * r + x % 2, 2 * m);
  }

  lemma RemainderUnique(x: int, q: int, r: int, m: int)
    requires m > 0 && x == q * m + r && 0 <= r < m
    ensures x % m == r
  {
    var d := q - x / m;
    assert d * m == x % m - r;
    assert d == 0;
  }

  lemma GroupFits(sum: nat, group: nat, shift: nat)
    requires sum < Pow2(shift) && group < 128
    ensures sum + group * Pow2(shift) < Pow2(shift + 7)
  {
    Pow2Group(shift);
    var p := Pow2(shift);
    assert group * p <= 127 * p;
  }

  // The whole varint is what was summed so far plus `weight` times the rest.
  ghost predicate Continues(whole: Option<(nat, nat)>, sum: nat, weight: nat, rest: Option<(nat, nat)>) {
    match rest
    case None => whole.None?
    case Some((v, j)) => whole == Some((sum + weight * v, j))
  }

  lemma OneGroup(data: bytes, start: nat, i: nat, sum: nat, w: nat)
    requires i < |data|
    requires Continues(ReadVarint(data, start), sum, w, ReadVarint(data, i))
    ensures data[i] < 128 ==> ReadVarint(data, start) == Some((sum + data[i] * w, i + 1))
    ensures data[i] >= 128 ==>
              Continues(ReadVarint(data, start), sum + (data[i] - 128) * w, 128 * w, ReadVarint(data, i + 1))
  {
    var b, tail := data[i], ReadVarint(data, i + 1);
    if b >= 128 && tail.Some? {
      var t := tail.value.0;
      assert ReadVarint(data, start).value.0 == sum + w * (b - 128 + 128 * t);
      Distribute(w, b - 128, t);
    } else if b < 128 {
      assert ReadVarint(data, start).value.0 == sum + w * b;
    }
  }

  lemma Distribute(w: nat, group: nat, rest: nat)
    ensures w * (group + 128 * rest) == group * w + (128 * w) * rest
  {
  }

  /** The unrolled varint loop that Unmarshal repeats for every integer, into
      a variable of `bits` bits: each group is shifted, cut to the width and
      or-ed in, so bits beyond the width vanish. */
  method ScanVarint(data: bytes, start: nat, bits: nat) returns (ok: bool, v: nat, index: nat)
    ensures ok <==> ReadVarint(data, start).Some?
    ensures ok ==> v == ReadVarint(data, start).value.0 % Pow2(bits)
    ensures ok ==> index == ReadVarint(data, start).value.1
  {
    index := start;
    ghost var sum: nat := 0;
    v := 0;
    var shift := 0;
    while true
      invariant start <= index
      invariant v == sum % Pow2(bits) && sum < Pow2(shift)
      invariant Continues(ReadVarint(data, start), sum, Pow2(shift), ReadVarint(data, index))
      decreases |data| - index
    {
      if index >= |data| {
        return false, 0, index;
      }
      var b := data[index];
      ghost var group := (b % 128) * Pow2(shift);
      assert b % 128 == if b < 128 then b else b - 128;
      OneGroup(data, start, index, sum, Pow2(shift));
      OrIsAdd(sum, b % 128, shift, bits);
      ShiftedIsProduct(b % 128, shift);
      GroupFits(sum, b % 128, shift);
      index := index + 1;
      v := Or(v, (b % 128) * Pow2(shift) % Pow2(bits), bits);
      sum := sum + group;
      if b < 128 {
        return true, v, index;
      }
      Pow2Group(shift);
      shift := shift + 7;
    }
  }
}

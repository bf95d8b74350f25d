/** Types shared by every module: optional values, the fixed-width integers of
    the original as ranges of `int`, and writing a run of bytes into a buffer. */
module Prelude {

  datatype Option<+T> = None | Some(value: T)

  const TWO_31: int := 0x8000_0000
  const TWO_32: int := 0x1_0000_0000
  const TWO_63: int := 0x8000_0000_0000_0000
  const TWO_64: int := 0x1_0000_0000_0000_0000

  // The largest length a slice can have on a 64-bit platform.
  const MAX_INT: int := TWO_63 - 1

  type byte = x: int | 0 <= x < 256
  type uint32 = x: int | 0 <= x < TWO_32
  type uint64 = x: int | 0 <= x < TWO_64
  type int32 = x: int | -TWO_31 <= x < TWO_31
  type int64 = x: int | -TWO_63 <= x < TWO_63

  type bytes = seq<byte>

  // Conversions between the signed and unsigned readings of the same bits.
  function AsUint64(x: int): uint64 {
    x % TWO_64
  }

  function AsInt64(x: int): int64 {
    var u := x % TWO_64;
    if u < TWO_63 then u else u - TWO_64
  }

  function AsUint32(x: int): uint32 {
    x % TWO_32
  }

  function AsInt32(x: int): int32 {
    var u := x % TWO_32;
    if u < TWO_31 then u else u - TWO_32
  }

  lemma SignedConversions(x: int)
    ensures -TWO_63 <= x < TWO_63 ==> AsInt64(AsUint64(x)) == x
    ensures -TWO_31 <= x < TWO_31 ==> AsInt32(AsUint32(x)) == x && AsInt32(AsUint64(x)) == x
    ensures 0 <= x < TWO_32 ==> AsUint32(x) == x
  {
  }

  /** The buffer `s` after the bytes `b` were written at offset `off`. */
  ghost function Put(s: bytes, off: nat, b: bytes): (r: bytes)
    requires off + |b| <= |s|
    ensures |r| == |s|
  {
    s[..off] + b + s[off + |b|..]
  }

  // Writing two runs back to back is writing their concatenation.
  lemma PutPut(s: bytes, off: nat, a: bytes, b: bytes)
    requires off + |a| + |b| <= |s|
    ensures Put(Put(s, off, a), off + |a|, b) == Put(s, off, a + b)
  {
    assert Put(s, off, a)[..off + |a|] == s[..off] + a;
    assert Put(s, off, a)[off + |a| + |b|..] == s[off + |a| + |b|..];
  }

  lemma PutNothing(s: bytes, off: nat)
    requires off <= |s|
    ensures Put(s, off, []) == s
  {
  }

  /** `b` occupies `data` from index `i` on. */
  ghost predicate At(data: bytes, i: nat, b: bytes) {
    i + |b| <= |data| && data[i..i + |b|] == b
  }

  lemma AtSplit(data: bytes, i: nat, a: bytes, b: bytes)
    requires At(data, i, a + b)
    ensures At(data, i, a) && At(data, i + |a|, b)
  {
    assert data[i..i + |a|] == (a + b)[..|a|];
    assert data[i + |a|..i + |a| + |b|] == (a + b)[|a|..];
  }
}

/** UUIDs as text: the validity check, the encoder and the decoder of id/id.go.
    Strings are their bytes. */
module Ids {
  import opened Prelude

  const HYPHEN: byte := 0x2d

  predicate IsDigit(b: byte) {
    0x30 <= b <= 0x39
  }

  predicate IsLowerHex(b: byte) {
    IsDigit(b) || 0x61 <= b <= 0x66
  }

  predicate IsHex(b: byte) {
    IsLowerHex(b) || 0x41 <= b <= 0x46
  }

  predicate AllHex(s: bytes) {
    forall i :: 0 <= i < |s| ==> IsHex(s[i])
  }

  predicate HyphenAt(i: int) {
    i == 8 || i == 13 || i == 18 || i == 23
  }

  /** Thirty-two hex digits in either case, or the same in five groups joined by
      hyphens (section 3 of RFC 4122). */
  predicate ValidId(id: bytes) {
    || (|id| == 32 && AllHex(id))
    || (|id| == 36 && forall i :: 0 <= i < 36 ==> if HyphenAt(i) then id[i] == HYPHEN else IsHex(id[i]))
  }

  method Valid(id: bytes) returns (ok: bool)
    ensures ok == ValidId(id)
  {
    if |id| != 32 &&
       !(|id| == 36 && id[8] == HYPHEN && id[13] == HYPHEN && id[18] == HYPHEN && id[23] == HYPHEN) {
      return false;
    }
    for index := 0 to |id|
      invariant forall i :: 0 <= i < index ==>
                  if |id| == 36 && HyphenAt(i) then id[i] == HYPHEN else IsHex(id[i])
    {
      var b: int := id[index];
      if |id| == 36 && HyphenAt(index) {
        if b == HYPHEN {
          continue;
        }
        return false;
      }
      if 0x41 <= b <= 0x46 {
        b := b + 0x20;
      }
      if (b < 0x61 || b > 0x66) && (b < 0x30 || b > 0x39) {
        return false;
      }
    }
    return true;
  }

  // ---- Hex -------------------------------------------------------------------

  function HexDigit(n: int): (c: byte)
    requires 0 <= n < 16
    ensures IsLowerHex(c) && HexValue(c) == n
  {
    if n < 10 then 0x30 + n else 0x61 + n - 10
  }

  function HexValue(c: byte): (n: int)
    requires IsHex(c)
    ensures 0 <= n < 16
  {
    if IsDigit(c) then c - 0x30 else if c >= 0x61 then c - 0x61 + 10 else c - 0x41 + 10
  }

  function Lower(c: byte): byte {
    if 0x41 <= c <= 0x46 then c + 0x20 else c
  }

  // Two digits per byte, in lower case.
  function HexText(b: bytes): (s: bytes)
    ensures |s| == 2 * |b|
    ensures forall i :: 0 <= i < 2 * |b| ==> s[i] == HexDigit(Half(b[i / 2], i % 2))
  {
    seq(2 * |b|, i requires 0 <= i < 2 * |b| => HexDigit(Half(b[i / 2], i % 2)))
  }

  function Half(x: byte, side: int): (n: int)
    ensures 0 <= n < 16
  {
    if side == 0 then x / 16 else x % 16
  }

  function HexBytes(s: bytes): (b: bytes)
    requires |s| % 2 == 0 && AllHex(s)
    ensures |b| == |s| / 2
    ensures forall k :: 0 <= k < |b| ==> b[k] == Pair(s, k)
  {
    seq(|s| / 2, k requires 0 <= k < |s| / 2 => Pair(s, k))
  }

  function Pair(s: bytes, k: nat): (x: byte)
    requires 2 * k + 1 < |s| && AllHex(s)
    ensures Half(x, 0) == HexValue(s[2 * k]) && Half(x, 1) == HexValue(s[2 * k + 1])
  {
    16 * HexValue(s[2 * k]) + HexValue(s[2 * k + 1])
  }

  lemma PairOfHalves(x: byte, hi: int, lo: int)
    requires hi == Half(x, 0) && lo == Half(x, 1)
    ensures x == 16 * hi + lo
  {
  }

  lemma HexTextIsLower(b: bytes)
    ensures forall i :: 0 <= i < 2 * |b| ==> IsLowerHex(HexText(b)[i])
  {
    hide HexText;
  }

  // ---- Encode ----------------------------------------------------------------

  function Hyphenate(s: bytes): (id: bytes)
    requires |s| == 32
    ensures |id| == 36
    ensures forall i :: 0 <= i < 36 ==>
              id[i] == if HyphenAt(i) then HYPHEN else s[i - HyphensBefore(i)]
  {
    s[0..8] + [HYPHEN] + s[8..12] + [HYPHEN] + s[12..16] + [HYPHEN] + s[16..20] + [HYPHEN] + s[20..32]
  }

  function HyphensBefore(i: int): (n: int)
    ensures 0 <= n <= 4
    ensures 0 <= i < 36 && !HyphenAt(i) ==> 0 <= i - n < 32
  {
    if i <= 8 then 0 else if i <= 13 then 1 else if i <= 18 then 2 else if i <= 23 then 3 else 4
  }

  /** Encode prints the sixteen bytes as five hyphenated groups of hex digits and
      refuses any other length. */
  function Encode(b: bytes): (r: Option<bytes>)
    ensures r.Some? <==> |b| == 16
    ensures r.Some? ==> ValidId(r.value) && r.value == Hyphenate(HexText(b))
  {
    if |b| != 16 then None
    else
      HexTextIsLower(b);
      var id := HexText(b[0..4]) + [HYPHEN] + HexText(b[4..6]) + [HYPHEN] + HexText(b[6..8]) + [HYPHEN] +
                HexText(b[8..10]) + [HYPHEN] + HexText(b[10..16]);
      EncodeIsHyphenated(b);
      Some(id)
  }

  lemma HexTextSlice(b: bytes, lo: nat, hi: nat)
    requires lo <= hi <= |b|
    ensures HexText(b[lo..hi]) == HexText(b)[2 * lo..2 * hi]
  {
    hide HexText, HexDigit, Half;
    var s := b[lo..hi];
    forall i | 0 <= i < 2 * |s| ensures HexText(s)[i] == HexText(b)[2 * lo + i] {
      assert (2 * lo + i) / 2 == lo + i / 2 && (2 * lo + i) % 2 == i % 2;
      assert s[i / 2] == b[lo + i / 2];
    }
  }

  lemma EncodeIsHyphenated(b: bytes)
    requires |b| == 16
    ensures HexText(b[0..4]) + [HYPHEN] + HexText(b[4..6]) + [HYPHEN] + HexText(b[6..8]) + [HYPHEN] +
            HexText(b[8..10]) + [HYPHEN] + HexText(b[10..16]) == Hyphenate(HexText(b))
  {
    HexTextSlice(b, 0, 4);
    HexTextSlice(b, 4, 6);
    HexTextSlice(b, 6, 8);
    HexTextSlice(b, 8, 10);
    HexTextSlice(b, 10, 16);
  }

  // ---- Decode ----------------------------------------------------------------

  /** The characters Decode copies: everything but the hyphens. */
  function WithoutHyphens(s: bytes): bytes {
    if s == [] then []
    else if s[|s| - 1] == HYPHEN then WithoutHyphens(s[..|s| - 1])
    else WithoutHyphens(s[..|s| - 1]) + [s[|s| - 1]]
  }

  lemma {:induction false} WithoutHyphensConcat(a: bytes, b: bytes)
    ensures WithoutHyphens(a + b) == WithoutHyphens(a) + WithoutHyphens(b)
    decreases |b|
  {
    if b == [] {
      assert a + b == a;
    } else {
      assert (a + b)[..|a + b| - 1] == a + b[..|b| - 1];
      WithoutHyphensConcat(a, b[..|b| - 1]);
    }
  }

  lemma {:induction false} WithoutHyphensHex(s: bytes)
    requires AllHex(s)
    ensures WithoutHyphens(s) == s
    decreases |s|
  {
    if s != [] {
      WithoutHyphensHex(s[..|s| - 1]);
      assert s[..|s| - 1] + [s[|s| - 1]] == s;
    }
  }

  // Removing the hyphens undoes putting them in.
  lemma WithoutHyphensUndo(s: bytes)
    requires |s| == 32 && AllHex(s)
    ensures WithoutHyphens(Hyphenate(s)) == s
  {
    hide WithoutHyphens, Hyphenate;
    var a, b, c, d, e := s[0..8], s[8..12], s[12..16], s[16..20], s[20..32];
    HyphenGroups(s);
    WithoutHyphensConcat(a + [HYPHEN] + b + [HYPHEN] + c + [HYPHEN] + d, [HYPHEN] + e);
    WithoutHyphensConcat(a + [HYPHEN] + b + [HYPHEN] + c, [HYPHEN] + d);
    WithoutHyphensConcat(a + [HYPHEN] + b, [HYPHEN] + c);
    WithoutHyphensConcat(a, [HYPHEN] + b);
    HyphenThen(b);
    HyphenThen(c);
    HyphenThen(d);
    HyphenThen(e);
    WithoutHyphensHex(a);
    assert a + b + c + d + e == s;
  }

  lemma HyphenGroups(s: bytes)
    requires |s| == 32
    ensures Hyphenate(s) == s[0..8] + [HYPHEN] + s[8..12] + [HYPHEN] + s[12..16] + ([HYPHEN] + s[16..20]) + ([HYPHEN] + s[20..32])
    ensures s[0..8] + [HYPHEN] + s[8..12] + [HYPHEN] + s[12..16] == s[0..8] + [HYPHEN] + s[8..12] + ([HYPHEN] + s[12..16])
    ensures s[0..8] + [HYPHEN] + s[8..12] == s[0..8] + ([HYPHEN] + s[8..12])
    ensures s[0..8] + [HYPHEN] + s[8..12] + [HYPHEN] + s[12..16] + [HYPHEN] + s[16..20] ==
            s[0..8] + [HYPHEN] + s[8..12] + [HYPHEN] + s[12..16] + ([HYPHEN] + s[16..20])
  {
  }

  lemma HyphenThen(s: bytes)
    requires AllHex(s)
    ensures WithoutHyphens([HYPHEN] + s) == s
  {
    WithoutHyphensConcat([HYPHEN], s);
    WithoutHyphensHex(s);
    assert WithoutHyphens([HYPHEN]) == [];
  }

  // The digits of a valid id, in order, found by position instead of by skipping.
  function Digits(id: bytes): (s: bytes)
    requires ValidId(id)
    ensures |s| == 32 && AllHex(s)
  {
    if |id| == 32 then id else id[0..8] + id[9..13] + id[14..18] + id[19..23] + id[24..36]
  }

  /** The skipping loop copies exactly the thirty-two digits of a valid id. */
  lemma DigitsOfValid(id: bytes)
    requires ValidId(id)
    ensures WithoutHyphens(id) == Digits(id)
  {
    if |id| == 32 {
      WithoutHyphensHex(id);
    } else {
      assert id == Hyphenate(Digits(id));
      WithoutHyphensUndo(Digits(id));
    }
  }

  lemma {:induction false} WithoutHyphensGrows(s: bytes, k: nat)
    requires k <= |s|
    ensures |WithoutHyphens(s[..k])| <= |WithoutHyphens(s)|
    decreases |s| - k
  {
    if k == |s| {
      assert s[..k] == s;
    } else {
      assert s[..k + 1][..k] == s[..k];
      WithoutHyphensGrows(s, k + 1);
    }
  }

  datatype DecodeResult = Decoded(id: bytes) | Invalid

  /** DecodeString: strips the hyphens into a 32-byte scratch array, then turns
      digit pairs into bytes. The array never overflows and is always filled. */
  method DecodeString(id: bytes) returns (r: DecodeResult)
    ensures r == if ValidId(id) then Decoded(HexBytes(Digits(id))) else Invalid
  {
    hide ValidId, HexBytes, Digits;
    var ok := Valid(id);
    if !ok {
      return Invalid;
    }
    DigitsOfValid(id);
    var source := new byte[32];
    var sourceIndex := 0;
    for index := 0 to |id|
      invariant sourceIndex == |WithoutHyphens(id[..index])| <= 32
      invariant source[..sourceIndex] == WithoutHyphens(id[..index])
    {
      assert id[..index + 1][..index] == id[..index];
      WithoutHyphensGrows(id, index + 1);
      if id[index] == HYPHEN {
        continue;
      }
      source[sourceIndex] := id[index];
      sourceIndex := sourceIndex + 1;
    }
    assert id[..|id|] == id;
    assert source[..] == source[..sourceIndex];
    var decoded := HexDecode(source[..]);
    r := Decoded(decoded);
  }

  // hex.Decode into a slice of the right size.
  method HexDecode(text: bytes) returns (b: bytes)
    requires |text| == 32 && AllHex(text)
    ensures b == HexBytes(text)
  {
    hide HexBytes, Pair;
    var destination := new byte[16];
    for k := 0 to 16
      invariant forall j :: 0 <= j < k ==> destination[j] == Pair(text, j)
    {
      destination[k] := Pair(text, k);
    }
    b := destination[..];
  }

  // ---- Round trips -----------------------------------------------------------

  lemma HexTextThenBytes(b: bytes)
    ensures AllHex(HexText(b)) && HexBytes(HexText(b)) == b
  {
    hide HexBytes;
    HexTextIsLower(b);
    var s := HexText(b);
    forall k | 0 <= k < |b| ensures Pair(s, k) == b[k] {
      assert (2 * k) / 2 == k && (2 * k) % 2 == 0 && (2 * k + 1) / 2 == k && (2 * k + 1) % 2 == 1;
      PairOfHalves(b[k], HexValue(s[2 * k]), HexValue(s[2 * k + 1]));
    }
  }

  lemma EncodeValue(b: bytes)
    requires |b| == 16
    ensures Encode(b) == Some(Hyphenate(HexText(b)))
  {
    hide HexText, Hyphenate;
    EncodeIsHyphenated(b);
  }

  lemma DigitsOfHyphenated(s: bytes)
    requires |s| == 32 && AllHex(s)
    ensures ValidId(Hyphenate(s)) && Digits(Hyphenate(s)) == s
  {
  }

  /** Bytes to text and back. */
  lemma EncodeThenDecode(b: bytes)
    requires |b| == 16
    ensures ValidId(Encode(b).value) && HexBytes(Digits(Encode(b).value)) == b
  {
    hide Encode, Hyphenate, Digits, HexText, HexBytes;
    EncodeValue(b);
    HexTextThenBytes(b);
    DigitsOfHyphenated(HexText(b));
  }

  /** The canonical spelling of an id: lower case, hyphenated. */
  function Canonical(id: bytes): bytes
    requires ValidId(id)
  {
    Hyphenate(seq(32, i requires 0 <= i < 32 => Lower(Digits(id)[i])))
  }

  /** Text to bytes and back gives the canonical spelling of the same id. */
  lemma DecodeThenEncode(id: bytes)
    requires ValidId(id)
    ensures Encode(HexBytes(Digits(id))) == Some(Canonical(id))
  {
    hide Encode, Digits, HexText, HexBytes, HexDigit, Pair;
    var d := Digits(id);
    var b := HexBytes(d);
    EncodeValue(b);
    var low := seq(32, i requires 0 <= i < 32 => Lower(d[i]));
    forall i | 0 <= i < 32 ensures HexText(b)[i] == low[i] {
      assert Half(Pair(d, i / 2), i % 2) == HexValue(d[i]);
      HexLower(d[i]);
    }
    assert HexText(b) == low;
  }

  lemma HexLower(c: byte)
    requires IsHex(c)
    ensures HexDigit(HexValue(c)) == Lower(c)
  {
  }

  // ---- The alphabet and the layout -------------------------------------------

  // The characters of a text as bytes.
  function Ascii(s: string): (b: bytes)
    requires forall i :: 0 <= i < |s| ==> s[i] < 256 as char
    ensures |b| == |s| && forall i :: 0 <= i < |s| ==> b[i] == s[i] as int
  {
    seq(|s|, i requires 0 <= i < |s| => s[i] as int)
  }

  /** The digits in order, and their values in either case. */
  lemma HexAlphabet(n: nat)
    requires n < 16
    ensures HexDigit(n) == Ascii("0123456789abcdef")[n]
    ensures IsHex(Ascii("0123456789ABCDEF")[n]) && HexValue(Ascii("0123456789ABCDEF")[n]) == n
  {
  }

  lemma HexCharacters(c: byte)
    ensures IsHex(c) <==> var x := c as char; '0' <= x <= '9' || 'a' <= x <= 'f' || 'A' <= x <= 'F'
  {
  }

  // Where byte k is printed: after 4, 6, 8 and 10 bytes comes a hyphen.
  function PlaceOf(k: nat): nat {
    2 * k + (if k >= 4 then 1 else 0) + (if k >= 6 then 1 else 0) + (if k >= 8 then 1 else 0) + (if k >= 10 then 1 else 0)
  }

  /** The text of an id, byte by byte: two lower-case digits each, high half first, in
      groups of 4, 2, 2, 2 and 6 bytes joined by hyphens. */
  lemma EncodeLayout(b: bytes, k: nat)
    requires |b| == 16 && k < 16
    ensures var text := Encode(b).value;
            && |text| == 36
            && text[PlaceOf(k)] == Ascii("0123456789abcdef")[b[k] / 16]
            && text[PlaceOf(k) + 1] == Ascii("0123456789abcdef")[b[k] % 16]
            && text[8] == text[13] == text[18] == text[23] == '-' as int
  {
    hide Encode, HexText, Hyphenate;
    EncodeValue(b);
    HexAlphabet(b[k] / 16);
    HexAlphabet(b[k] % 16);
    assert (2 * k) / 2 == k && (2 * k) % 2 == 0 && (2 * k + 1) / 2 == k && (2 * k + 1) % 2 == 1;
    var text := Hyphenate(HexText(b));
    assert text[PlaceOf(k)] == HexText(b)[2 * k];
    assert text[PlaceOf(k) + 1] == HexText(b)[2 * k + 1];
  }

  /** The canonical spelling, character by character: a hyphenated id in lower case. */
  lemma CanonicalIs(id: bytes, i: nat)
    requires ValidId(id) && i < 36
    ensures |Canonical(id)| == 36
    ensures |id| == 36 ==> Canonical(id)[i] == if 'A' as int <= id[i] <= 'F' as int then id[i] + 32 else id[i]
    ensures |id| == 32 ==> Canonical(id) == Canonical(Hyphenate(id))
  {
    hide Hyphenate;
    if |id| == 36 {
      var d := Digits(id);
      assert !HyphenAt(i) ==> d[i - HyphensBefore(i)] == id[i];
    } else {
      DigitsOfHyphenated(id);
    }
  }
}

/** Endpoint tokens: a primary key, encrypted under the token key when there is
    one, and resolved back to its two ids by the update handler. AES in counter
    mode is an arbitrary keystream, a byte for every key, initial vector and
    position (section 6.5 of NIST SP 800-38A); randomness is a parameter. */
module Tokens {
  import opened Prelude
  import opened Ids
  import opened Keys
  import opened Varint

  const BLOCK_SIZE: nat := 16

  type Keystream = (bytes, bytes, nat) -> byte

  // ---- Exclusive or ----------------------------------------------------------

  function XorBits(a: nat, b: nat, n: nat): (r: nat)
    ensures r < Pow2(n)
  {
    if n == 0 then 0 else (a % 2 + b % 2) % 2 + 2 * XorBits(a / 2, b / 2, n - 1)
  }

  lemma {:induction false} XorTwice(a: nat, b: nat, n: nat)
    requires a < Pow2(n)
    ensures XorBits(XorBits(a, b, n), b, n) == a
  {
    if n > 0 {
      var low, high := (a % 2 + b % 2) % 2, XorBits(a / 2, b / 2, n - 1);
      LowBit(low, high);
      XorTwice(a / 2, b / 2, n - 1);
      Parity(a, b);
    }
  }

  lemma LowBit(low: nat, high: nat)
    requires low < 2
    ensures (low + 2 * high) % 2 == low && (low + 2 * high) / 2 == high
  {
  }

  lemma Parity(a: nat, b: nat)
    ensures ((a % 2 + b % 2) % 2 + b % 2) % 2 == a % 2
  {
  }

  function Xor(a: byte, b: byte): byte {
    assert Pow2(8) == 256;
    XorBits(a, b, 8)
  }

  /** Bit k of the exclusive or is set exactly when the bits differ. */
  lemma {:induction false} XorBit(a: nat, b: nat, n: nat, k: nat)
    requires k < n
    ensures XorBits(a, b, n) / Pow2(k) % 2 == 1 <==> a / Pow2(k) % 2 != b / Pow2(k) % 2
    decreases n
  {
    hide Pow2;
    var low, high := (a % 2 + b % 2) % 2, XorBits(a / 2, b / 2, n - 1);
    LowBit(low, high);
    if k == 0 {
      NoShift();
    } else {
      XorBit(a / 2, b / 2, n - 1, k - 1);
      HalfThenPower(low + 2 * high, k);
      HalfThenPower(a, k);
      HalfThenPower(b, k);
    }
  }

  lemma HalfThenPower(x: nat, k: nat)
    requires k > 0
    ensures x / Pow2(k) == x / 2 / Pow2(k - 1)
  {
    var p := Pow2(k - 1);
    var q, r := x / 2 / p, x / 2 % p;
    assert x / 2 == q * p + r;
    assert x == q * (2 * p) + (2 * r + x % 2);
    QuotientOf(x, q, 2 * r + x % 2, 2 * p);
  }

  lemma XorByteBit(a: byte, b: byte, k: nat)
    requires k < 8
    ensures Xor(a, b) / Pow2(k) % 2 == 1 <==> a / Pow2(k) % 2 != b / Pow2(k) % 2
  {
    XorBit(a, b, 8, k);
  }

  lemma {:induction false} XorRecovers(a: nat, b: nat, n: nat)
    requires b < Pow2(n)
    ensures XorBits(a, XorBits(a, b, n), n) == b
  {
    if n > 0 {
      var low, high := (a % 2 + b % 2) % 2, XorBits(a / 2, b / 2, n - 1);
      LowBit(low, high);
      XorRecovers(a / 2, b / 2, n - 1);
      Parity(b, a);
    }
  }

  function Ctr(ks: Keystream, key: bytes, iv: bytes, value: bytes): (r: bytes)
    ensures |r| == |value|
  {
    seq<byte>(|value|, i requires 0 <= i < |value| => Xor(value[i], ks(key, iv, i)))
  }

  // Applying the keystream twice restores the value.
  lemma CtrTwice(ks: Keystream, key: bytes, iv: bytes, value: bytes)
    ensures Ctr(ks, key, iv, Ctr(ks, key, iv, value)) == value
  {
    forall i | 0 <= i < |value| ensures Ctr(ks, key, iv, Ctr(ks, key, iv, value))[i] == value[i] {
      assert Pow2(8) == 256;
      XorTwice(value[i], ks(key, iv, i), 8);
    }
  }

  /** The value and its encryption give the keystream back, byte by byte: different
      keystreams encrypt differently wherever they differ. */
  lemma KeystreamShows(ks: Keystream, key: bytes, iv: bytes, value: bytes, i: nat)
    requires i < |value|
    ensures Xor(value[i], Ctr(ks, key, iv, value)[i]) == ks(key, iv, i)
    ensures forall other: Keystream :: other(key, iv, i) != ks(key, iv, i) ==>
              Ctr(other, key, iv, value)[i] != Ctr(ks, key, iv, value)[i]
  {
    assert Pow2(8) == 256;
    XorRecovers(value[i], ks(key, iv, i), 8);
    forall other: Keystream | other(key, iv, i) != ks(key, iv, i)
      ensures Ctr(other, key, iv, value)[i] != Ctr(ks, key, iv, value)[i]
    {
      XorRecovers(value[i], other(key, iv, i), 8);
    }
  }

  // XORKeyStream(value, value): in place.
  method XorKeyStream(ks: Keystream, key: bytes, iv: bytes, value: array<byte>)
    modifies value
    ensures value[..] == Ctr(ks, key, iv, old(value[..]))
  {
    for i := 0 to value.Length
      invariant forall k :: 0 <= k < i ==> value[k] == Xor(old(value[k]), ks(key, iv, k))
      invariant forall k :: i <= k < value.Length ==> value[k] == old(value[k])
    {
      value[i] := Xor(value[i], ks(key, iv, i));
    }
  }

  // ---- Base 64 (section 5 of RFC 4648) ---------------------------------------

  const PAD: byte := 0x3d

  function Symbol(n: int): (c: byte)
    requires 0 <= n < 64
    ensures c != PAD && SymbolValue(c) == Some(n)
  {
    if n < 26 then 0x41 + n
    else if n < 52 then 0x61 + n - 26
    else if n < 62 then 0x30 + n - 52
    else if n == 62 then 0x2d else 0x5f
  }

  function SymbolValue(c: byte): (r: Option<int>)
    ensures r.Some? ==> 0 <= r.value < 64
  {
    if 0x41 <= c <= 0x5a then Some(c - 0x41)
    else if 0x61 <= c <= 0x7a then Some(c - 0x61 + 26)
    else if 0x30 <= c <= 0x39 then Some(c - 0x30 + 52)
    else if c == 0x2d then Some(62)
    else if c == 0x5f then Some(63)
    else None
  }

  function Base64(b: bytes): (s: bytes)
    ensures b != [] ==> |s| >= 4
  {
    if b == [] then []
    else if |b| == 1 then [Symbol(b[0] / 4), Symbol(b[0] % 4 * 16), PAD, PAD]
    else if |b| == 2 then
      [Symbol(b[0] / 4), Symbol(b[0] % 4 * 16 + b[1] / 16), Symbol(b[1] % 16 * 4), PAD]
    else
      [Symbol(b[0] / 4), Symbol(b[0] % 4 * 16 + b[1] / 16), Symbol(b[1] % 16 * 4 + b[2] / 64), Symbol(b[2] % 64)]
      + Base64(b[3..])
  }

  function FromBase64(s: bytes): Option<bytes> {
    if s == [] then Some([])
    else if |s| < 4 then None
    else
      var a, b, c, d := SymbolValue(s[0]), SymbolValue(s[1]), SymbolValue(s[2]), SymbolValue(s[3]);
      if a.None? || b.None? then None
      else if s[2] == PAD then
        if s[3] != PAD || |s| != 4 then None else Some([a.value * 4 + b.value / 16])
      else if c.None? then None
      else if s[3] == PAD then
        if |s| != 4 then None else Some([a.value * 4 + b.value / 16, b.value % 16 * 16 + c.value / 4])
      else if d.None? then None
      else match FromBase64(s[4..])
        case None => None
        case Some(rest) =>
          Some([a.value * 4 + b.value / 16, b.value % 16 * 16 + c.value / 4, c.value % 4 * 64 + d.value] + rest)
  }

  /** The alphabet in order, without padding. */
  lemma Base64Alphabet(n: nat)
    requires n < 64
    ensures n < 26 ==> Symbol(n) == 'A' as int + n
    ensures 26 <= n < 52 ==> Symbol(n) == 'a' as int + n - 26
    ensures 52 <= n < 62 ==> Symbol(n) == '0' as int + n - 52
    ensures Symbol(62) == '-' as int && Symbol(63) == '_' as int && PAD == '=' as int
  {
  }

  /** Three bytes, as one number in base 256, are four symbols, as one in base 64. */
  lemma Base64Three(x: byte, y: byte, z: byte)
    ensures var s := Base64([x, y, z]);
            && |s| == 4
            && var a, b, c, d := SymbolValue(s[0]), SymbolValue(s[1]), SymbolValue(s[2]), SymbolValue(s[3]);
               && a.Some? && b.Some? && c.Some? && d.Some?
               && ((a.value * 64 + b.value) * 64 + c.value) * 64 + d.value == (x as int * 256 + y as int) * 256 + z as int
  {
    hide Symbol, SymbolValue;
    ThreeBytesText([x, y, z]);
    assert Base64([x, y, z][3..]) == [];
    Sextets(x, y, z);
  }

  /** Groups of three bytes are encoded each by itself. */
  lemma {:induction false} Base64Concat(a: bytes, b: bytes)
    requires |a| % 3 == 0
    ensures Base64(a + b) == Base64(a) + Base64(b)
    decreases |a|
  {
    hide Base64, Symbol;
    if a == [] {
      Base64Nothing();
      assert a + b == b && [] + Base64(b) == Base64(b);
    } else {
      assert (a + b)[3..] == a[3..] + b;
      Base64Concat(a[3..], b);
      ThreeBytesText(a);
      ThreeBytesText(a + b);
    }
  }

  lemma Base64Nothing()
    ensures Base64([]) == []
  {
  }

  /** The last group: one byte is two symbols and two pads, two bytes three and one. */
  lemma Base64Last(x: byte, y: byte)
    ensures Base64([x]) == [Symbol(x / 4), Symbol(x % 4 * 16), '=' as int, '=' as int]
    ensures Base64([x, y]) == [Symbol(x / 4), Symbol(x % 4 * 16 + y / 16), Symbol(y % 16 * 4), '=' as int]
  {
  }

  // The decoder passes over line breaks.
  function WithoutBreaks(s: bytes): bytes {
    if s == [] then []
    else if s[0] == 0x0a || s[0] == 0x0d then WithoutBreaks(s[1..])
    else [s[0]] + WithoutBreaks(s[1..])
  }

  lemma {:induction false} NoBreaks(s: bytes)
    requires forall i :: 0 <= i < |s| ==> s[i] != 0x0a && s[i] != 0x0d
    ensures WithoutBreaks(s) == s
    decreases |s|
  {
    if s != [] {
      NoBreaks(s[1..]);
      assert [s[0]] + s[1..] == s;
    }
  }

  lemma {:induction false} Base64HasNoBreaks(b: bytes)
    ensures forall i :: 0 <= i < |Base64(b)| ==> Base64(b)[i] != 0x0a && Base64(b)[i] != 0x0d
    decreases |b|
  {
    if |b| >= 3 {
      Base64HasNoBreaks(b[3..]);
    }
  }

  lemma {:induction false} Base64RoundTrip(b: bytes)
    ensures FromBase64(Base64(b)) == Some(b)
    decreases |b|
  {
    hide Symbol, SymbolValue;
    if |b| >= 3 {
      Base64RoundTrip(b[3..]);
      ThreeBytes(b[0], b[1], b[2], b[3..]);
      assert b == [b[0], b[1], b[2]] + b[3..];
    } else {
      Base64Tail(b);
    }
  }

  lemma {:induction false} ThreeBytes(x: byte, y: byte, z: byte, rest: bytes)
    requires FromBase64(Base64(rest)) == Some(rest)
    ensures FromBase64(Base64([x, y, z] + rest)) == Some([x, y, z] + rest)
  {
    hide Symbol, SymbolValue, FromBase64, Base64;
    var b := [x, y, z] + rest;
    assert b[3..] == rest;
    ThreeBytesText(b);
    FourSymbols(x / 4, x % 4 * 16 + y / 16, y % 16 * 4 + z / 64, z % 64, Base64(rest));
    Sextets(x, y, z);
  }

  lemma ThreeBytesText(b: bytes)
    requires |b| >= 3
    ensures Base64(b) == [Symbol(b[0] / 4), Symbol(b[0] % 4 * 16 + b[1] / 16), Symbol(b[1] % 16 * 4 + b[2] / 64),
                          Symbol(b[2] % 64)] + Base64(b[3..])
  {
  }

  lemma {:induction false} FourSymbols(a: int, b: int, c: int, d: int, tail: bytes)
    requires 0 <= a < 64 && 0 <= b < 64 && 0 <= c < 64 && 0 <= d < 64
    ensures FromBase64([Symbol(a), Symbol(b), Symbol(c), Symbol(d)] + tail) ==
            match FromBase64(tail)
            case None => None
            case Some(rest) => Some([a * 4 + b / 16, b % 16 * 16 + c / 4, c % 4 * 64 + d] + rest)
  {
    hide Symbol, SymbolValue;
    var s := [Symbol(a), Symbol(b), Symbol(c), Symbol(d)] + tail;
    assert s[4..] == tail;
  }

  lemma {:induction false} Base64Tail(b: bytes)
    requires |b| < 3
    ensures FromBase64(Base64(b)) == Some(b)
  {
    if |b| == 2 {
      TwoBytes(b[0], b[1]);
      assert b == [b[0], b[1]];
    } else if |b| == 1 {
      OneByte(b[0]);
      assert b == [b[0]];
    }
  }

  lemma OneByte(x: byte)
    ensures FromBase64(Base64([x])) == Some([x])
  {
    hide Symbol, SymbolValue;
    assert x / 4 * 4 + (x % 4 * 16) / 16 == x;
  }

  lemma TwoBytes(x: byte, y: byte)
    ensures FromBase64(Base64([x, y])) == Some([x, y])
  {
    hide Symbol, SymbolValue;
    var b, c := x % 4 * 16 + y / 16, y % 16 * 4;
    assert x / 4 * 4 + b / 16 == x && b % 16 * 16 + c / 4 == y;
    var s := Base64([x, y]);
    assert s[0] == Symbol(x / 4) && s[1] == Symbol(b) && s[2] == Symbol(c) && s[3] == PAD;
  }

  lemma Sextets(x: byte, y: byte, z: byte)
    ensures x / 4 * 4 + (x % 4 * 16 + y / 16) / 16 == x
    ensures (x % 4 * 16 + y / 16) % 16 * 16 + (y % 16 * 4 + z / 64) / 4 == y
    ensures (y % 16 * 4 + z / 64) % 4 * 64 + z % 64 == z
  {
  }

  // ---- Encode and Decode (crypt.go) -------------------------------------------

  predicate UsableKey(key: bytes) {
    |key| == 16 || |key| == 24 || |key| == 32
  }

  datatype Result<T> = Ok(value: T) | Err

  /** Encode: the value itself under a nil key; otherwise the initial vector and the
      encrypted value in base 64. The cipher refuses every other key size, and the
      random source may fail to give an initial vector. */
  function Encoded(ks: Keystream, key: Option<bytes>, iv: Option<bytes>, value: bytes): Result<bytes> {
    if key.None? then Ok(value)
    else if value == [] then Ok([])
    else if !UsableKey(key.value) || iv.None? then Err
    else Ok(Base64(iv.value + Ctr(ks, key.value, iv.value, value)))
  }

  // The same on the caller's buffer, which is destroyed.
  method Encode(ks: Keystream, key: Option<bytes>, iv: Option<bytes>, value: array<byte>) returns (r: Result<bytes>)
    modifies value
    ensures r == Encoded(ks, key, iv, old(value[..]))
  {
    if key.None? {
      return Ok(value[..]);
    }
    if value.Length == 0 {
      return Ok([]);
    }
    if !UsableKey(key.value) || iv.None? {
      return Err;
    }
    XorKeyStream(ks, key.value, iv.value, value);
    r := Ok(Base64(iv.value + value[..]));
  }

  /** encodePK: the key is encoded only when there is a token key. */
  function EncodePK(ks: Keystream, tokenKey: bytes, iv: Option<bytes>, key: bytes): Result<bytes> {
    if tokenKey == [] then Ok(key) else Encoded(ks, Some(tokenKey), iv, key)
  }

  function DecodeToken(ks: Keystream, tokenKey: bytes, token: bytes): Result<bytes> {
    if token == [] then Ok([])
    else if tokenKey == [] then Ok(token)
    else match FromBase64(WithoutBreaks(token))
      case None => Err
      case Some(raw) =>
        if !UsableKey(tokenKey) || |raw| < BLOCK_SIZE then Err
        else Ok(Ctr(ks, tokenKey, raw[..BLOCK_SIZE], raw[BLOCK_SIZE..]))
  }

  method Decode(ks: Keystream, tokenKey: bytes, token: bytes) returns (r: Result<bytes>)
    ensures r == DecodeToken(ks, tokenKey, token)
  {
    if |token| == 0 {
      return Ok([]);
    }
    if |tokenKey| == 0 {
      return Ok(token);
    }
    var raw := FromBase64(WithoutBreaks(token));
    if raw.None? || !UsableKey(tokenKey) || |raw.value| < BLOCK_SIZE {
      return Err;
    }
    var iv := raw.value[..BLOCK_SIZE];
    var body := raw.value[BLOCK_SIZE..];
    var value := new byte[|body|](i requires 0 <= i < |body| => body[i]);
    assert value[..] == body;
    XorKeyStream(ks, tokenKey, iv, value);
    r := Ok(value[..]);
  }

  /** What a token decodes to under a usable key: exactly the value that, encrypted under
      the token's initial vector, gives the rest of the token. */
  lemma DecodeIff(ks: Keystream, tokenKey: bytes, token: bytes, value: bytes)
    requires UsableKey(tokenKey) && token != []
    ensures DecodeToken(ks, tokenKey, token) == Ok(value) <==>
            exists raw: bytes :: FromBase64(WithoutBreaks(token)) == Some(raw) && |raw| >= 16 &&
                                 Ctr(ks, tokenKey, raw[..16], value) == raw[16..]
  {
    hide FromBase64, WithoutBreaks, Ctr;
    var decoded := FromBase64(WithoutBreaks(token));
    if decoded.Some? && |decoded.value| >= 16 {
      var raw := decoded.value;
      CtrTwice(ks, tokenKey, raw[..16], value);
      CtrTwice(ks, tokenKey, raw[..16], raw[16..]);
    }
  }

  // ---- resolvePK (handlers_endpoint.go) ---------------------------------------

  predicate IsSpace(b: byte) {
    b == 0x20 || 0x09 <= b <= 0x0d
  }

  function TrimLeft(s: bytes): bytes {
    if s == [] || !IsSpace(s[0]) then s else TrimLeft(s[1..])
  }

  function TrimRight(s: bytes): bytes {
    if s == [] || !IsSpace(s[|s| - 1]) then s else TrimRight(s[..|s| - 1])
  }

  predicate KeyByte(b: byte) {
    || 0x61 <= b <= 0x7a || 0x41 <= b <= 0x5a || IsDigit(b)
    || b == 0x5f || b == DOT || b == PAD || b == HYPHEN
  }

  predicate ValidKey(pk: bytes) {
    forall i :: 0 <= i < |pk| ==> KeyByte(pk[i])
  }

  method ValidPK(pk: bytes) returns (ok: bool)
    ensures ok == ValidKey(pk)
  {
    for i := 0 to |pk|
      invariant forall k :: 0 <= k < i ==> KeyByte(pk[k])
    {
      var b: int := pk[i];
      if 0x41 <= b <= 0x5a {
        b := b + 0x20;
      }
      if (b < 0x61 || b > 0x7a) && (b < 0x30 || b > 0x39) && b != 0x5f && b != DOT && b != PAD && b != HYPHEN {
        return false;
      }
    }
    return true;
  }

  function DecodePK(ks: Keystream, tokenKey: bytes, token: bytes): Result<bytes> {
    if token == [] then Err
    else if tokenKey == [] then Ok(token)
    else match DecodeToken(ks, tokenKey, token)
      case Err => Err
      case Ok(pk) => Ok(TrimRight(TrimLeft(pk)))
  }

  function ResolvePK(ks: Keystream, tokenKey: bytes, token: bytes): Result<(bytes, bytes)> {
    match DecodePK(ks, tokenKey, token)
    case Err => Err
    case Ok(pk) =>
      if !ValidKey(pk) then Err
      else match SplitIds(pk)
        case Pair(u, c) => Ok((u, c))
        case _ => Err
  }

  // The alphabet of keys.
  lemma KeyCharacters(b: byte)
    ensures KeyByte(b) <==> var x := b as char; 'a' <= x <= 'z' || 'A' <= x <= 'Z' || '0' <= x <= '9' ||
                                                x == '_' || x == '.' || x == '=' || x == '-'
  {
  }

  /** Trimming takes white space off both ends and nothing else. */
  lemma {:induction false} TrimIs(s: bytes) returns (left: bytes, right: bytes)
    ensures s == left + TrimRight(TrimLeft(s)) + right
    ensures forall i :: 0 <= i < |left| ==> IsSpace(left[i])
    ensures forall i :: 0 <= i < |right| ==> IsSpace(right[i])
    ensures var t := TrimRight(TrimLeft(s)); t != [] ==> !IsSpace(t[0]) && !IsSpace(t[|t| - 1])
  {
    left := TrimLeftIs(s);
    right := TrimRightIs(TrimLeft(s));
  }

  lemma {:induction false} TrimLeftIs(s: bytes) returns (left: bytes)
    ensures s == left + TrimLeft(s) && forall i :: 0 <= i < |left| ==> IsSpace(left[i])
    ensures TrimLeft(s) != [] ==> !IsSpace(TrimLeft(s)[0])
    decreases |s|
  {
    if s == [] || !IsSpace(s[0]) {
      left := [];
      assert s == [] + s;
    } else {
      var rest := TrimLeftIs(s[1..]);
      left := [s[0]] + rest;
      assert s == [s[0]] + s[1..];
      assert left + TrimLeft(s) == [s[0]] + (rest + TrimLeft(s[1..]));
    }
  }

  lemma {:induction false} TrimRightIs(s: bytes) returns (right: bytes)
    ensures s == TrimRight(s) + right && forall i :: 0 <= i < |right| ==> IsSpace(right[i])
    ensures TrimRight(s) != [] ==> !IsSpace(TrimRight(s)[|TrimRight(s)| - 1])
    decreases |s|
  {
    if s == [] || !IsSpace(s[|s| - 1]) {
      right := [];
    } else {
      var rest := TrimRightIs(s[..|s| - 1]);
      right := rest + [s[|s| - 1]];
      assert s == s[..|s| - 1] + [s[|s| - 1]];
      assert TrimRight(s) + rest + [s[|s| - 1]] == TrimRight(s) + right;
    }
  }

  /** Which tokens resolve to a pair: those whose decoded and trimmed key consists of key
      characters and is the pair joined, with no dot in the device id and neither empty. */
  lemma ResolveIff(ks: Keystream, tokenKey: bytes, token: bytes, uaid: bytes, chid: bytes)
    ensures ResolvePK(ks, tokenKey, token) == Ok((uaid, chid)) <==>
            && DecodePK(ks, tokenKey, token) == Ok(JoinIds(uaid, chid))
            && ValidKey(JoinIds(uaid, chid)) && NoDot(uaid) && uaid != [] && chid != []
  {
    hide DecodePK, ValidKey, SplitIds, JoinIds, NoDot;
    var pk := DecodePK(ks, tokenKey, token);
    if pk.Ok? {
      SplitIff(pk.value, uaid, chid);
    }
  }

  // Without a token key the token is the key itself.
  lemma PlainTokens(ks: Keystream, iv: Option<bytes>, key: bytes)
    ensures EncodePK(ks, [], iv, key) == Ok(key)
    ensures DecodePK(ks, [], key) == if key == [] then Err else Ok(key)
  {
  }

  lemma ValidIdIsKey(id: bytes)
    requires ValidId(id)
    ensures ValidKey(id)
  {
    if |id| == 36 {
      forall i | 0 <= i < 36 ensures KeyByte(id[i]) {
        assert HyphenAt(i) || IsHex(id[i]);
      }
    }
  }

  lemma KeyHasNoSpace(pk: bytes)
    requires ValidKey(pk)
    ensures TrimRight(TrimLeft(pk)) == pk
  {
  }

  lemma JoinedKey(uaid: bytes, chid: bytes)
    requires ValidId(uaid) && ValidId(chid)
    ensures ValidKey(JoinIds(uaid, chid)) && SplitIds(JoinIds(uaid, chid)) == Pair(uaid, chid)
  {
    ValidHasNoDot(uaid);
    ValidHasNoDot(chid);
    SplitOfJoin(uaid, chid);
    ValidIdIsKey(uaid);
    ValidIdIsKey(chid);
    var key := JoinIds(uaid, chid);
    forall i | 0 <= i < |key| ensures KeyByte(key[i]) {
      if i < |uaid| {
        assert key[i] == uaid[i];
      } else if i > |uaid| {
        assert key[i] == chid[i - |uaid| - 1];
      }
    }
  }

  /** An endpoint handed out for a device and a channel resolves to that device
      and channel, for every keystream and initial vector, exactly when the token
      key is absent or of a size the cipher takes; with any other key no token is
      issued. */
  lemma {:induction false} TokenRoundTrip(ks: Keystream, tokenKey: bytes, iv: bytes, uaid: bytes, chid: bytes)
    requires |iv| == BLOCK_SIZE && ValidId(uaid) && ValidId(chid)
    ensures var token := EncodePK(ks, tokenKey, Some(iv), JoinIds(uaid, chid));
            && (token.Ok? <==> |tokenKey| == 0 || |tokenKey| == 16 || |tokenKey| == 24 || |tokenKey| == 32)
            && (token.Ok? ==> ResolvePK(ks, tokenKey, token.value) == Ok((uaid, chid)))
  {
    hide Base64, DecodeToken, ValidId, ValidKey, SplitIds, JoinIds, TrimLeft, TrimRight;
    var key := JoinIds(uaid, chid);
    JoinedKey(uaid, chid);
    JoinedNonempty(uaid, chid);
    KeyHasNoSpace(key);
    if UsableKey(tokenKey) {
      TokenDecodes(ks, tokenKey, iv, key);
    }
  }

  lemma JoinedNonempty(uaid: bytes, chid: bytes)
    ensures JoinIds(uaid, chid) != []
  {
  }

  lemma {:induction false} TokenDecodes(ks: Keystream, tokenKey: bytes, iv: bytes, key: bytes)
    requires |iv| == BLOCK_SIZE && UsableKey(tokenKey)
    ensures var token := Base64(iv + Ctr(ks, tokenKey, iv, key));
            token != [] && DecodeToken(ks, tokenKey, token) == Ok(key)
  {
    hide Base64, FromBase64, Ctr, WithoutBreaks;
    var raw := iv + Ctr(ks, tokenKey, iv, key);
    Base64RoundTrip(raw);
    Base64HasNoBreaks(raw);
    NoBreaks(Base64(raw));
    assert raw[..BLOCK_SIZE] == iv && raw[BLOCK_SIZE..] == Ctr(ks, tokenKey, iv, key);
    CtrTwice(ks, tokenKey, iv, key);
  }
}

/** Decoding what was encoded: for every Header, Field and Message, the reader
    applied to the writer's bytes ends without error and gives the record back,
    up to an empty hmac or uuid coming back as nil. */
module LogRoundTrip {
  import opened Prelude
  import opened Varint
  import opened LogRecords
  import opened LogReader
  import LogWriter

  // ---- One tagged item at index i -------------------------------------------

  lemma ReadTag(data: bytes, i: nat, tag: byte, rest: bytes)
    requires tag < 128 && At(data, i, [tag] + rest)
    ensures ReadVarint(data, i) == Some((tag, i + 1)) && At(data, i + 1, rest)
  {
    AtSplit(data, i, [tag], rest);
    assert data[i] == data[i..i + 1][0];
  }

  lemma AtWhole(data: bytes)
    ensures At(data, 0, data)
  {
  }

  lemma ReadNumber(data: bytes, i: nat, tag: byte, v: nat)
    requires tag < 128 && At(data, i, TagVarint(tag, v))
    ensures ReadVarint(data, i) == Some((tag, i + 1))
    ensures Integer(data, 0, i + 1) == Number(v, i + |TagVarint(tag, v)|)
  {
    ReadTag(data, i, tag, VarintBytes(v));
    VarintRoundTrip(data, i + 1, v);
  }

  lemma PostIndex(j: nat, len: nat)
    requires j + len <= MAX_INT
    ensures AsInt64(j + AsInt64(len)) == j + len
  {
  }

  lemma ReadRun(data: bytes, i: nat, tag: byte, s: bytes)
    requires tag < 128 && |data| <= MAX_INT && At(data, i, TagBytes(tag, s))
    ensures ReadVarint(data, i) == Some((tag, i + 1))
    ensures var b := i + |TagBytes(tag, s)|;
            && LengthAt(data, i + 1) == Some((b - |s|, b))
            && Delimited(data, 2, i + 1) == Chunk(b - |s|, b)
            && data[b - |s|..b] == s
  {
    hide VarintBytes, ReadVarint, AsInt64;
    PostIndex(i + 1 + |VarintBytes(|s|)|, |s|);
    var len := VarintBytes(|s|);
    assert TagBytes(tag, s) == [tag] + (len + s);
    ReadTag(data, i, tag, len + s);
    AtSplit(data, i + 1, len, s);
    VarintRoundTrip(data, i + 1, |s|);
  }

  lemma SmallNumbers(n: byte)
    ensures AsUint64(n) == n && AsInt32(n) == n
  {
  }

  lemma TagParts(tag: byte)
    ensures FieldNumber(tag) == tag / 8 && WireType(tag) == tag % 8
  {
    hide AsInt32, AsUint64;
    SmallNumbers(tag);
    SmallNumbers(tag / 8);
  }

  // ---- Unknown fields ----------------------------------------------------------

  predicate HeaderKnows(num: int) {
    num == 1 || 3 <= num <= 6
  }

  predicate FieldKnows(num: int) {
    1 <= num <= 8
  }

  predicate MessageKnows(num: int) {
    1 <= num <= 10
  }

  /** Bytes that are unknown fields to a record: none at all, or a field of an unknown
      number, its tag in the fewest bytes, skipped within the data, and more of them. */
  ghost predicate Unknowns(sk: Skip, knows: int -> bool, u: bytes)
    decreases |u|
  {
    u == [] ||
    match ReadVarint(u, 0)
    case None => false
    case Some((v, j)) =>
      var n := sk(u);
      && !knows(FieldNumber(v)) && j == |VarintBytes(AsUint64(v))|
      && n.Some? && n.value <= |u| && Unknowns(sk, knows, u[n.value..])
  }

  // A varint is read the same with or without what comes before it.
  lemma {:induction false} ReadSuffix(data: bytes, i: nat, k: nat)
    requires i + k <= |data|
    ensures ReadVarint(data, i + k) == match ReadVarint(data[i..], k)
                                       case None => None
                                       case Some((v, j)) => Some((v, i + j))
    decreases |data| - i - k
  {
    if i + k < |data| && data[i + k] >= 128 {
      ReadSuffix(data, i, k + 1);
    }
  }

  // Where the unknown field at i ends.
  lemma UnknownAt(sk: Skip, data: bytes, i: nat, knows: int -> bool) returns (k: nat)
    requires i < |data| && Unknowns(sk, knows, data[i..])
    ensures ReadVarint(data, i).Some? && !knows(FieldNumber(ReadVarint(data, i).value.0))
    ensures UnknownRun(sk, data, i) == Chunk(i, k)
    ensures i < k <= |data| && Unknowns(sk, knows, data[k..])
  {
    hide ReadVarint, VarintBytes, FieldNumber;
    ReadSuffix(data, i, 0);
    k := i + sk(data[i..]).value;
    assert data[i..][k - i..] == data[k..];
  }

  // ---- Header ----------------------------------------------------------------

  // One turn of the loop that reads a known tag and succeeds.
  lemma HeaderTurn(sk: Skip, data: bytes, i: nat, m: Header, tag: byte, k: nat, m': Header)
    requires i < |data| && tag < 128 && ReadVarint(data, i) == Some((tag, i + 1))
    requires HeaderCase(data, i + 1, m, tag / 8, tag % 8) == Next(k, m')
    ensures HeaderLoop(sk, data, i, m) == HeaderLoop(sk, data, k, m')
  {
    hide ReadVarint, HeaderCase, FieldNumber, WireType;
    TagParts(tag);
  }

  lemma HeaderNumber(sk: Skip, data: bytes, i: nat, m: Header, num: int, x: Option<int>)
    requires (num == 1 || num == 3 || num == 5) && At(data, i, OptVarint(8 * num, x))
    ensures HeaderLoop(sk, data, i, m) == HeaderLoop(sk, data, i + |OptVarint(8 * num, x)|,
                                                 if x.None? then m else HeaderWithNumber(m, num, AsUint64(x.value)))
  {
    hide HeaderLoop, VarintBytes, ReadVarint;
    if x.Some? {
      ReadNumber(data, i, 8 * num, AsUint64(x.value));
      HeaderTurn(sk, data, i, m, 8 * num, i + |OptVarint(8 * num, x)|, HeaderWithNumber(m, num, AsUint64(x.value)));
    }
  }

  lemma HeaderText(sk: Skip, data: bytes, i: nat, m: Header, num: int, s: Option<bytes>)
    requires |data| <= MAX_INT && (num == 4 || num == 6) && At(data, i, OptBytes(8 * num + 2, s))
    ensures HeaderLoop(sk, data, i, m) == HeaderLoop(sk, data, i + |OptBytes(8 * num + 2, s)|,
                                                 if s.None? then m else HeaderWithBytes(m, num, s.value))
  {
    hide HeaderLoop, VarintBytes, ReadVarint;
    if s.Some? {
      ReadRun(data, i, 8 * num + 2, s.value);
      HeaderTurn(sk, data, i, m, 8 * num + 2, i + |OptBytes(8 * num + 2, s)|, HeaderWithBytes(m, num, s.value));
    }
  }

  function EmptyAsNil(s: Option<bytes>): Option<bytes> {
    if s == Some([]) then None else s
  }

  function HeaderReadBack(h: Header): Header {
    h.(hmac := EmptyAsNil(h.hmac))
  }

  lemma HeaderFrontRead(sk: Skip, data: bytes, h: Header)
    requires |data| <= MAX_INT && At(data, 0, HeaderFront(h))
    ensures HeaderLoop(sk, data, 0, EmptyHeader) ==
            HeaderLoop(sk, data, |HeaderFront(h)|,
                       EmptyHeader.(messageLength := h.messageLength, hmacHashFunction := h.hmacHashFunction,
                                    hmacSigner := h.hmacSigner))
  {
    hide HeaderLoop, OptBytes, OptVarint, At;
    var a, b := OptVarint(0x08, h.messageLength), OptVarint(0x18, h.hmacHashFunction);
    AtSplit(data, 0, a + b, OptBytes(0x22, h.hmacSigner));
    AtSplit(data, 0, a, b);
    HeaderNumber(sk, data, 0, EmptyHeader, 1, h.messageLength);
    var m1 := EmptyHeader.(messageLength := h.messageLength);
    HeaderNumber(sk, data, |a|, m1, 3, h.hmacHashFunction);
    HeaderText(sk, data, |a + b|, m1.(hmacHashFunction := h.hmacHashFunction), 4, h.hmacSigner);
  }

  lemma HeaderKnownRead(sk: Skip, data: bytes, h: Header)
    requires |data| <= MAX_INT && At(data, 0, HeaderKnown(h))
    ensures HeaderLoop(sk, data, 0, EmptyHeader) ==
            HeaderLoop(sk, data, |HeaderKnown(h)|, HeaderReadBack(h).(unrecognized := []))
  {
    hide HeaderLoop, HeaderFront, OptBytes, OptVarint, At;
    var front, d := HeaderFront(h), OptVarint(0x28, h.hmacKeyVersion);
    AtSplit(data, 0, front + d, OptBytes(0x32, h.hmac));
    AtSplit(data, 0, front, d);
    HeaderFrontRead(sk, data, h);
    var m3 := EmptyHeader.(messageLength := h.messageLength, hmacHashFunction := h.hmacHashFunction,
                           hmacSigner := h.hmacSigner);
    HeaderNumber(sk, data, |front|, m3, 5, h.hmacKeyVersion);
    HeaderText(sk, data, |front + d|, m3.(hmacKeyVersion := h.hmacKeyVersion), 6, h.hmac);
  }

  lemma HeaderRoundTrip(sk: Skip, h: Header)
    requires |HeaderBytes(h)| <= MAX_INT && Unknowns(sk, HeaderKnows, h.unrecognized)
    ensures HeaderLoop(sk, HeaderBytes(h), 0, EmptyHeader) == Decoded(Done, HeaderReadBack(h))
  {
    hide HeaderLoop, HeaderKnown, At, Unknowns;
    var data := HeaderBytes(h);
    AtWhole(data);
    AtSplit(data, 0, HeaderKnown(h), h.unrecognized);
    HeaderKnownRead(sk, data, h);
    HeaderEnd(sk, data, |HeaderKnown(h)|, HeaderReadBack(h).(unrecognized := []), h.unrecognized);
    assert [] + h.unrecognized == h.unrecognized;
  }

  lemma HeaderUnknown(data: bytes, j: nat, m: Header, v: nat)
    requires !HeaderKnows(FieldNumber(v))
    ensures HeaderCase(data, j, m, FieldNumber(v), WireType(v)) == Stop(UnknownField, m)
  {
    hide FieldNumber, WireType;
  }

  lemma {:induction false} HeaderEnd(sk: Skip, data: bytes, i: nat, m: Header, u: bytes)
    requires At(data, i, u) && i + |u| == |data| && Unknowns(sk, HeaderKnows, u)
    ensures HeaderLoop(sk, data, i, m) == Decoded(Done, m.(unrecognized := m.unrecognized + u))
    decreases |u|
  {
    hide ReadVarint, VarintBytes, HeaderCase, FieldNumber, WireType, UnknownRun, HeaderKnows;
    assert data[i..] == u;
    if u != [] {
      var k := UnknownAt(sk, data, i, HeaderKnows);
      HeaderUnknown(data, ReadVarint(data, i).value.1, m, ReadVarint(data, i).value.0);
      HeaderEnd(sk, data, k, m.(unrecognized := m.unrecognized + data[i..k]), data[k..]);
      assert data[i..k] + data[k..] == u;
      assert m.unrecognized + data[i..k] + data[k..] == m.unrecognized + u;
    } else {
      assert m.unrecognized + u == m.unrecognized;
    }
  }

  // ---- Field -----------------------------------------------------------------

  // One turn of the loop that reads a known tag and succeeds.
  lemma FieldTurn(sk: Skip, data: bytes, i: nat, m: Field, tag: byte, k: nat, m': Field)
    requires i < |data| && tag < 128 && ReadVarint(data, i) == Some((tag, i + 1))
    requires FieldCase(data, i + 1, m, tag / 8, tag % 8) == Next(k, m')
    ensures FieldLoop(sk, data, i, m) == FieldLoop(sk, data, k, m')
  {
    hide ReadVarint, FieldCase, FieldNumber, WireType;
    TagParts(tag);
  }

  lemma FieldText(sk: Skip, data: bytes, i: nat, m: Field, num: int, s: Option<bytes>)
    requires |data| <= MAX_INT && (num == 1 || num == 3) && At(data, i, OptBytes(8 * num + 2, s))
    ensures FieldLoop(sk, data, i, m) == FieldLoop(sk, data, i + |OptBytes(8 * num + 2, s)|,
                                               if s.None? then m else FieldWithBytes(m, num, s.value))
  {
    hide FieldLoop, VarintBytes, ReadVarint;
    if s.Some? {
      ReadRun(data, i, 8 * num + 2, s.value);
      FieldTurn(sk, data, i, m, 8 * num + 2, i + |OptBytes(8 * num + 2, s)|, FieldWithBytes(m, num, s.value));
    }
  }

  lemma FieldType(sk: Skip, data: bytes, i: nat, m: Field, x: Option<int32>)
    requires At(data, i, OptVarint(0x10, x)) && m.valueType == None
    ensures FieldLoop(sk, data, i, m) == FieldLoop(sk, data, i + |OptVarint(0x10, x)|, m.(valueType := x))
  {
    if x.Some? {
      ReadNumber(data, i, 0x10, AsUint64(x.value));
      SignedConversions(x.value);
      FieldTurn(sk, data, i, m, 0x10, i + |OptVarint(0x10, x)|, m.(valueType := x));
    } else {
      assert m.(valueType := x) == m;
    }
  }

  // Repeated strings (field 4) and byte slices (field 5) are appended in order.
  lemma {:induction false} FieldRepeated(sk: Skip, data: bytes, i: nat, m: Field, num: int, ss: seq<bytes>)
    requires |data| <= MAX_INT && (num == 4 || num == 5) && At(data, i, RepBytes(8 * num + 2, ss))
    ensures FieldLoop(sk, data, i, m) == FieldLoop(sk, data, i + |RepBytes(8 * num + 2, ss)|, FieldWithAll(m, num, ss))
    decreases |ss|
  {
    hide FieldLoop, VarintBytes, ReadVarint, TagBytes, At;
    if ss == [] {
      assert m.valueString + [] == m.valueString && m.valueBytes + [] == m.valueBytes;
    } else {
      var front, last := ss[..|ss| - 1], ss[|ss| - 1];
      var done := RepBytes(8 * num + 2, front);
      AtSplit(data, i, done, TagBytes(8 * num + 2, last));
      FieldRepeated(sk, data, i, m, num, front);
      var m' := FieldWithAll(m, num, front);
      ReadRun(data, i + |done|, 8 * num + 2, last);
      FieldTurn(sk, data, i + |done|, m', 8 * num + 2, i + |RepBytes(8 * num + 2, ss)|, FieldWithBytes(m', num, last));
      assert m.valueString + front + [last] == m.valueString + ss;
      assert m.valueBytes + front + [last] == m.valueBytes + ss;
    }
  }

  ghost function FieldWithAll(m: Field, num: int, ss: seq<bytes>): Field {
    if num == 4 then m.(valueString := m.valueString + ss) else m.(valueBytes := m.valueBytes + ss)
  }

  // The packed loop over a run of varints reads exactly that run.
  lemma {:induction false} IntegersRead(data: bytes, i: nat, xs: seq<int64>, k: nat)
    requires k <= |xs| && At(data, i, Varints(xs))
    ensures |Varints(xs[..k])| <= |Varints(xs)|
    ensures var post := i + |Varints(xs)|;
            IntegerRun(data, i, post, []) == IntegerRun(data, i + |Varints(xs[..k])|, post, xs[..k])
    decreases k
  {
    hide VarintBytes, ReadVarint;
    if k > 0 {
      IntegersRead(data, i, xs, k - 1);
      LogWriter.VarintsStep(xs, k - 1);
      var done, last := Varints(xs[..k - 1]), VarintBytes(AsUint64(xs[k - 1]));
      VarintsAt(data, i, xs, k);
      AtSplit(data, i, done, last);
      VarintRoundTrip(data, i + |done|, AsUint64(xs[k - 1]));
      SignedConversions(xs[k - 1]);
      assert xs[..k - 1] + [xs[k - 1]] == xs[..k];
    } else {
      assert xs[..0] == [];
    }
  }

  // A prefix of the values occupies a prefix of the run.
  lemma {:induction false} VarintsAt(data: bytes, i: nat, xs: seq<int64>, k: nat)
    requires k <= |xs| && At(data, i, Varints(xs))
    ensures At(data, i, Varints(xs[..k]))
    decreases |xs|
  {
    if k == |xs| {
      assert xs[..k] == xs;
    } else {
      var front := xs[..|xs| - 1];
      AtSplit(data, i, Varints(front), VarintBytes(AsUint64(xs[|xs| - 1])));
      assert front[..k] == xs[..k];
      VarintsAt(data, i, front, k);
    }
  }

  lemma {:induction false} DoublesRead(data: bytes, i: nat, xs: seq<uint64>, k: nat)
    requires k <= |xs| && At(data, i, Fixed64s(xs))
    ensures DoubleRun(data, i, i + 8 * |xs|, []) == DoubleRun(data, i + 8 * k, i + 8 * |xs|, xs[..k])
    decreases k
  {
    hide Fixed64, Fixed64At, Fixed64s, At;
    if k > 0 {
      DoublesRead(data, i, xs, k - 1);
      Fixed64sAt(data, i, xs, k - 1);
      Fixed64RoundTrip(data, i + 8 * (k - 1), xs[k - 1]);
      assert xs[..k - 1] + [xs[k - 1]] == xs[..k];
    } else {
      assert xs[..0] == [];
    }
  }

  lemma {:induction false} Fixed64sAt(data: bytes, i: nat, xs: seq<uint64>, k: nat)
    requires k < |xs| && At(data, i, Fixed64s(xs))
    ensures At(data, i + 8 * k, Fixed64(xs[k]))
    decreases |xs|
  {
    var front := xs[..|xs| - 1];
    AtSplit(data, i, Fixed64s(front), Fixed64(xs[|xs| - 1]));
    if k < |front| {
      Fixed64sAt(data, i, front, k);
    }
  }

  lemma Fixed64RoundTrip(data: bytes, i: nat, v: uint64)
    requires At(data, i, Fixed64(v))
    ensures Fixed64At(data, i) == v
  {
    assert data[i..i + 8] == Fixed64(v);
    Base256(v);
  }

  lemma Base256(v: uint64)
    ensures v == v % 0x100 + v / 0x100 % 0x100 * 0x100 + v / 0x1_0000 % 0x100 * 0x1_0000 +
                 v / 0x100_0000 % 0x100 * 0x100_0000 + v / 0x1_0000_0000 % 0x100 * 0x1_0000_0000 +
                 v / 0x100_0000_0000 % 0x100 * 0x100_0000_0000 +
                 v / 0x1_0000_0000_0000 % 0x100 * 0x1_0000_0000_0000 +
                 v / 0x100_0000_0000_0000 % 0x100 * 0x100_0000_0000_0000
  {
    assert v / 0x1_0000 == v / 0x100 / 0x100;
    assert v / 0x100_0000 == v / 0x1_0000 / 0x100;
    assert v / 0x1_0000_0000 == v / 0x100_0000 / 0x100;
    assert v / 0x100_0000_0000 == v / 0x1_0000_0000 / 0x100;
    assert v / 0x1_0000_0000_0000 == v / 0x100_0000_0000 / 0x100;
    assert v / 0x100_0000_0000_0000 == v / 0x1_0000_0000_0000 / 0x100;
  }

  lemma {:induction false} BoolsRead(data: bytes, i: nat, xs: seq<bool>, k: nat)
    requires k <= |xs| && At(data, i, Bools(xs))
    ensures BoolRun(data, i, i + |xs|, []) == BoolRun(data, i + k, i + |xs|, xs[..k])
    decreases k
  {
    if k > 0 {
      BoolsRead(data, i, xs, k - 1);
      BoolsAt(data, i, xs, k - 1);
      assert xs[..k - 1] + [xs[k - 1]] == xs[..k];
    } else {
      assert xs[..0] == [];
    }
  }

  lemma {:induction false} BoolsAt(data: bytes, i: nat, xs: seq<bool>, k: nat)
    requires k < |xs| && At(data, i, Bools(xs))
    ensures data[i + k] == BoolByte(xs[k])
    decreases |xs|
  {
    var front := xs[..|xs| - 1];
    AtSplit(data, i, Bools(front), [BoolByte(xs[|xs| - 1])]);
    if k < |front| {
      BoolsAt(data, i, front, k);
    } else {
      assert data[i + k] == data[i + k..i + k + 1][0];
    }
  }

  lemma FieldIntegers(sk: Skip, data: bytes, i: nat, m: Field, xs: seq<int64>)
    requires |data| <= MAX_INT && m.valueInteger == [] && At(data, i, Packed(0x32, Varints(xs)))
    ensures FieldLoop(sk, data, i, m) == FieldLoop(sk, data, i + |Packed(0x32, Varints(xs))|, m.(valueInteger := xs))
  {
    hide FieldLoop, VarintBytes, ReadVarint, Fixed64At, TagBytes;
    if xs == [] {
      assert m.(valueInteger := xs) == m;
    } else {
      var run := Varints(xs);
      ReadRun(data, i, 0x32, run);
      var from := i + |TagBytes(0x32, run)| - |run|;
      IntegersRead(data, from, xs, |xs|);
      assert xs[..|xs|] == xs;
      FieldTurn(sk, data, i, m, 0x32, i + |TagBytes(0x32, run)|, m.(valueInteger := xs));
    }
  }

  lemma FieldDoubles(sk: Skip, data: bytes, i: nat, m: Field, xs: seq<uint64>)
    requires |data| <= MAX_INT && m.valueDouble == [] && At(data, i, Packed(0x3a, Fixed64s(xs)))
    ensures FieldLoop(sk, data, i, m) == FieldLoop(sk, data, i + |Packed(0x3a, Fixed64s(xs))|, m.(valueDouble := xs))
  {
    hide FieldLoop, VarintBytes, ReadVarint, Fixed64At, TagBytes;
    if xs == [] {
      assert m.(valueDouble := xs) == m;
    } else {
      var run := Fixed64s(xs);
      ReadRun(data, i, 0x3a, run);
      var from := i + |TagBytes(0x3a, run)| - |run|;
      DoublesRead(data, from, xs, |xs|);
      assert xs[..|xs|] == xs;
      FieldTurn(sk, data, i, m, 0x3a, i + |TagBytes(0x3a, run)|, m.(valueDouble := xs));
    }
  }

  lemma FieldBools(sk: Skip, data: bytes, i: nat, m: Field, xs: seq<bool>)
    requires |data| <= MAX_INT && m.valueBool == [] && At(data, i, Packed(0x42, Bools(xs)))
    ensures FieldLoop(sk, data, i, m) == FieldLoop(sk, data, i + |Packed(0x42, Bools(xs))|, m.(valueBool := xs))
  {
    hide FieldLoop, VarintBytes, ReadVarint, Fixed64At, TagBytes;
    if xs == [] {
      assert m.(valueBool := xs) == m;
    } else {
      var run := Bools(xs);
      ReadRun(data, i, 0x42, run);
      var from := i + |TagBytes(0x42, run)| - |run|;
      BoolsRead(data, from, xs, |xs|);
      assert xs[..|xs|] == xs;
      FieldTurn(sk, data, i, m, 0x42, i + |TagBytes(0x42, run)|, m.(valueBool := xs));
    }
  }

  lemma FieldScalarsRead(sk: Skip, data: bytes, f: Field)
    requires |data| <= MAX_INT && At(data, 0, FieldScalars(f))
    ensures FieldLoop(sk, data, 0, EmptyField) ==
            FieldLoop(sk, data, |FieldScalars(f)|,
                      EmptyField.(name := f.name, valueType := f.valueType, representation := f.representation))
  {
    hide FieldLoop, OptBytes, OptVarint, At;
    var a, b, c := OptBytes(0x0a, f.name), OptVarint(0x10, f.valueType), OptBytes(0x1a, f.representation);
    AtSplit(data, 0, a + b, c);
    AtSplit(data, 0, a, b);
    FieldText(sk, data, 0, EmptyField, 1, f.name);
    var m1 := EmptyField.(name := f.name);
    FieldType(sk, data, |a|, m1, f.valueType);
    var m2 := m1.(valueType := f.valueType);
    FieldText(sk, data, |a + b|, m2, 3, f.representation);
  }

  lemma FieldListsRead(sk: Skip, data: bytes, i: nat, m: Field, f: Field)
    requires |data| <= MAX_INT && At(data, i, FieldLists(f)) && m.valueString == [] && m.valueBytes == []
    ensures FieldLoop(sk, data, i, m) ==
            FieldLoop(sk, data, i + |FieldLists(f)|, m.(valueString := f.valueString, valueBytes := f.valueBytes))
  {
    hide FieldLoop, RepBytes, At;
    var a, b := RepBytes(0x22, f.valueString), RepBytes(0x2a, f.valueBytes);
    AtSplit(data, i, a, b);
    FieldRepeated(sk, data, i, m, 4, f.valueString);
    var m1 := m.(valueString := f.valueString);
    assert m.valueString + f.valueString == f.valueString;
    FieldRepeated(sk, data, i + |a|, m1, 5, f.valueBytes);
    assert m1.valueBytes + f.valueBytes == f.valueBytes;
  }

  lemma FieldPackedRead(sk: Skip, data: bytes, i: nat, m: Field, f: Field)
    requires |data| <= MAX_INT && At(data, i, FieldPacked(f))
    requires m.valueInteger == [] && m.valueDouble == [] && m.valueBool == []
    ensures FieldLoop(sk, data, i, m) ==
            FieldLoop(sk, data, i + |FieldPacked(f)|,
                      m.(valueInteger := f.valueInteger, valueDouble := f.valueDouble, valueBool := f.valueBool))
  {
    hide FieldLoop, Packed, At;
    var a, b := Packed(0x32, Varints(f.valueInteger)), Packed(0x3a, Fixed64s(f.valueDouble));
    var c := Packed(0x42, Bools(f.valueBool));
    AtSplit(data, i, a + b, c);
    AtSplit(data, i, a, b);
    FieldIntegers(sk, data, i, m, f.valueInteger);
    var m1 := m.(valueInteger := f.valueInteger);
    FieldDoubles(sk, data, i + |a|, m1, f.valueDouble);
    var m2 := m1.(valueDouble := f.valueDouble);
    FieldBools(sk, data, i + |a + b|, m2, f.valueBool);
  }

  lemma FieldUnknown(data: bytes, j: nat, m: Field, v: nat)
    requires !FieldKnows(FieldNumber(v))
    ensures FieldCase(data, j, m, FieldNumber(v), WireType(v)) == Stop(UnknownField, m)
  {
    hide FieldNumber, WireType;
  }

  lemma {:induction false} FieldEnd(sk: Skip, data: bytes, i: nat, m: Field, u: bytes)
    requires At(data, i, u) && i + |u| == |data| && Unknowns(sk, FieldKnows, u)
    ensures FieldLoop(sk, data, i, m) == Decoded(Done, m.(unrecognized := m.unrecognized + u))
    decreases |u|
  {
    hide ReadVarint, VarintBytes, FieldCase, FieldNumber, WireType, UnknownRun, FieldKnows;
    assert data[i..] == u;
    if u != [] {
      var k := UnknownAt(sk, data, i, FieldKnows);
      FieldUnknown(data, ReadVarint(data, i).value.1, m, ReadVarint(data, i).value.0);
      FieldEnd(sk, data, k, m.(unrecognized := m.unrecognized + data[i..k]), data[k..]);
      assert data[i..k] + data[k..] == u;
      assert m.unrecognized + data[i..k] + data[k..] == m.unrecognized + u;
    } else {
      assert m.unrecognized + u == m.unrecognized;
    }
  }

  lemma FieldRoundTrip(sk: Skip, f: Field)
    requires |FieldBytes(f)| <= MAX_INT && Unknowns(sk, FieldKnows, f.unrecognized)
    ensures FieldLoop(sk, FieldBytes(f), 0, EmptyField) == Decoded(Done, f)
  {
    hide FieldLoop, FieldScalars, FieldLists, FieldPacked, At, Unknowns;
    var data := FieldBytes(f);
    var a, b, c := FieldScalars(f), FieldLists(f), FieldPacked(f);
    AtWhole(data);
    AtSplit(data, 0, a + b + c, f.unrecognized);
    AtSplit(data, 0, a + b, c);
    AtSplit(data, 0, a, b);
    FieldScalarsRead(sk, data, f);
    var m1 := EmptyField.(name := f.name, valueType := f.valueType, representation := f.representation);
    FieldListsRead(sk, data, |a|, m1, f);
    var m2 := m1.(valueString := f.valueString, valueBytes := f.valueBytes);
    FieldPackedRead(sk, data, |a + b|, m2, f);
    FieldEnd(sk, data, |a + b + c|, f.(unrecognized := []), f.unrecognized);
    assert [] + f.unrecognized == f.unrecognized;
  }

  // ---- Message ---------------------------------------------------------------

  // One turn of the loop that reads a known tag and succeeds.
  lemma MessageTurn(sk: Skip, data: bytes, i: nat, m: Message, tag: byte, k: nat, m': Message)
    requires i < |data| && tag < 128 && ReadVarint(data, i) == Some((tag, i + 1))
    requires MessageCase(sk, data, i + 1, m, tag / 8, tag % 8) == Next(k, m')
    ensures MessageLoop(sk, data, i, m) == MessageLoop(sk, data, k, m')
  {
    hide ReadVarint, MessageCase, FieldNumber, WireType;
    TagParts(tag);
  }

  lemma MessageTimestamp(sk: Skip, data: bytes, i: nat, m: Message, x: Option<int64>)
    requires m.timestamp.None? && At(data, i, OptVarint(0x10, x))
    ensures MessageLoop(sk, data, i, m) == MessageLoop(sk, data, i + |OptVarint(0x10, x)|, m.(timestamp := x))
  {
    hide MessageLoop, VarintBytes, ReadVarint;
    if x.Some? {
      SignedConversions(x.value);
      ReadNumber(data, i, 0x10, AsUint64(x.value));
      MessageTurn(sk, data, i, m, 0x10, i + |OptVarint(0x10, x)|, m.(timestamp := x));
    } else {
      assert m.(timestamp := x) == m;
    }
  }

  ghost function SetNumber(m: Message, num: int, x: Option<int32>): Message {
    if num == 5 then m.(severity := x) else m.(pid := x)
  }

  lemma MessageNumber(sk: Skip, data: bytes, i: nat, m: Message, num: int, x: Option<int32>)
    requires (num == 5 && m.severity.None?) || (num == 8 && m.pid.None?)
    requires At(data, i, OptVarint32(8 * num, x))
    ensures MessageLoop(sk, data, i, m) == MessageLoop(sk, data, i + |OptVarint32(8 * num, x)|, SetNumber(m, num, x))
  {
    hide MessageLoop, VarintBytes, ReadVarint;
    if x.Some? {
      SignedConversions(x.value);
      ReadNumber(data, i, 8 * num, AsUint32(x.value));
      MessageTurn(sk, data, i, m, 8 * num, i + |OptVarint32(8 * num, x)|, SetNumber(m, num, x));
    } else {
      assert SetNumber(m, num, x) == m;
    }
  }

  // What a fresh record's text field holds after reading `s` into it.
  ghost function SetText(m: Message, num: int, s: Option<bytes>): Message {
    match s
    case None => m
    case Some(t) => WithBytes(m, num, t)
  }

  lemma MessageText(sk: Skip, data: bytes, i: nat, m: Message, num: int, s: Option<bytes>)
    requires num == 1 || num == 3 || num == 4 || num == 6 || num == 7 || num == 9
    requires |data| <= MAX_INT && At(data, i, OptBytes(8 * num + 2, s))
    ensures MessageLoop(sk, data, i, m) == MessageLoop(sk, data, i + |OptBytes(8 * num + 2, s)|, SetText(m, num, s))
  {
    hide MessageLoop, VarintBytes, ReadVarint, WithBytes;
    if s.Some? {
      ReadRun(data, i, 8 * num + 2, s.value);
      MessageTurn(sk, data, i, m, 8 * num + 2, i + |OptBytes(8 * num + 2, s)|, WithBytes(m, num, s.value));
    }
  }

  function MessageReadBack(m: Message): Message {
    m.(uuid := EmptyAsNil(m.uuid))
  }

  lemma MessageHeadRead(sk: Skip, data: bytes, x: Message)
    requires |data| <= MAX_INT && At(data, 0, MessageHead(x))
    ensures MessageLoop(sk, data, 0, EmptyMessage) ==
            MessageLoop(sk, data, |MessageHead(x)|,
                        EmptyMessage.(uuid := EmptyAsNil(x.uuid), timestamp := x.timestamp, msgType := x.msgType,
                                      logger := x.logger, severity := x.severity))
  {
    hide MessageLoop, OptBytes, OptVarint, OptVarint32, At;
    var a, b, c := OptBytes(0x0a, x.uuid), OptVarint(0x10, x.timestamp), OptBytes(0x1a, x.msgType);
    var d, e := OptBytes(0x22, x.logger), OptVarint32(0x28, x.severity);
    AtSplit(data, 0, a + b + c + d, e);
    AtSplit(data, 0, a + b + c, d);
    AtSplit(data, 0, a + b, c);
    AtSplit(data, 0, a, b);
    MessageText(sk, data, 0, EmptyMessage, 1, x.uuid);
    var m1 := EmptyMessage.(uuid := EmptyAsNil(x.uuid));
    MessageTimestamp(sk, data, |a|, m1, x.timestamp);
    var m2 := m1.(timestamp := x.timestamp);
    MessageText(sk, data, |a + b|, m2, 3, x.msgType);
    var m3 := m2.(msgType := x.msgType);
    MessageText(sk, data, |a + b + c|, m3, 4, x.logger);
    var m4 := m3.(logger := x.logger);
    MessageNumber(sk, data, |a + b + c + d|, m4, 5, x.severity);
  }

  lemma MessageTailRead(sk: Skip, data: bytes, i: nat, m: Message, x: Message)
    requires |data| <= MAX_INT && At(data, i, MessageTail(x))
    requires m.payload.None? && m.envVersion.None? && m.pid.None? && m.hostname.None?
    ensures MessageLoop(sk, data, i, m) ==
            MessageLoop(sk, data, i + |MessageTail(x)|,
                        m.(payload := x.payload, envVersion := x.envVersion, pid := x.pid, hostname := x.hostname))
  {
    hide MessageLoop, OptBytes, OptVarint32, At;
    var a, b := OptBytes(0x32, x.payload), OptBytes(0x3a, x.envVersion);
    var c, d := OptVarint32(0x40, x.pid), OptBytes(0x4a, x.hostname);
    AtSplit(data, i, a + b + c, d);
    AtSplit(data, i, a + b, c);
    AtSplit(data, i, a, b);
    MessageText(sk, data, i, m, 6, x.payload);
    var m1 := m.(payload := x.payload);
    MessageText(sk, data, i + |a|, m1, 7, x.envVersion);
    var m2 := m1.(envVersion := x.envVersion);
    MessageNumber(sk, data, i + |a + b|, m2, 8, x.pid);
    var m3 := m2.(pid := x.pid);
    MessageText(sk, data, i + |a + b + c|, m3, 9, x.hostname);
  }

  // The first k nested records are decoded and appended in order.
  lemma {:induction false} MessageFieldsRead(sk: Skip, data: bytes, i: nat, m: Message, fs: seq<Field>)
    requires |data| <= MAX_INT && At(data, i, RepBytes(0x52, FieldRuns(fs)))
    requires forall k :: 0 <= k < |fs| ==> Unknowns(sk, FieldKnows, fs[k].unrecognized)
    ensures MessageLoop(sk, data, i, m) ==
            MessageLoop(sk, data, i + |RepBytes(0x52, FieldRuns(fs))|, m.(fields := m.fields + fs))
    decreases |fs|
  {
    hide MessageLoop, FieldBytes, TagBytes, RepBytes, FieldRuns, At, Unknowns;
    NestedRuns(fs);
    if fs == [] {
      assert m.(fields := m.fields + fs) == m;
    } else {
      var front, last := fs[..|fs| - 1], fs[|fs| - 1];
      var done := RepBytes(0x52, FieldRuns(front));
      AtSplit(data, i, done, TagBytes(0x52, FieldBytes(last)));
      MessageFieldsRead(sk, data, i, m, front);
      OneFieldRead(sk, data, i + |done|, m.(fields := m.fields + front), last);
      assert m.fields + front + [last] == m.fields + fs;
    }
  }

  lemma NestedRuns(fs: seq<Field>)
    ensures fs == [] ==> RepBytes(0x52, FieldRuns(fs)) == []
    ensures fs != [] ==> RepBytes(0x52, FieldRuns(fs)) ==
                         RepBytes(0x52, FieldRuns(fs[..|fs| - 1])) + TagBytes(0x52, FieldBytes(fs[|fs| - 1]))
  {
    hide FieldBytes, TagBytes;
    if fs != [] {
      assert FieldRuns(fs)[..|fs| - 1] == FieldRuns(fs[..|fs| - 1]);
    }
  }

  lemma OneFieldRead(sk: Skip, data: bytes, i: nat, m: Message, f: Field)
    requires |data| <= MAX_INT && At(data, i, TagBytes(0x52, FieldBytes(f))) && Unknowns(sk, FieldKnows, f.unrecognized)
    ensures MessageLoop(sk, data, i, m) ==
            MessageLoop(sk, data, i + |TagBytes(0x52, FieldBytes(f))|, m.(fields := m.fields + [f]))
  {
    hide MessageLoop, FieldLoop, FieldBytes, VarintBytes, ReadVarint;
    ReadRun(data, i, 0x52, FieldBytes(f));
    FieldRoundTrip(sk, f);
    MessageTurn(sk, data, i, m, 0x52, i + |TagBytes(0x52, FieldBytes(f))|, m.(fields := m.fields + [f]));
  }

  lemma MessageUnknown(sk: Skip, data: bytes, j: nat, m: Message, v: nat)
    requires !MessageKnows(FieldNumber(v))
    ensures MessageCase(sk, data, j, m, FieldNumber(v), WireType(v)) == Stop(UnknownField, m)
  {
    hide FieldNumber, WireType;
  }

  lemma {:induction false} MessageEnd(sk: Skip, data: bytes, i: nat, m: Message, u: bytes)
    requires At(data, i, u) && i + |u| == |data| && Unknowns(sk, MessageKnows, u)
    ensures MessageLoop(sk, data, i, m) == Decoded(Done, m.(unrecognized := m.unrecognized + u))
    decreases |u|
  {
    hide ReadVarint, VarintBytes, MessageCase, FieldNumber, WireType, UnknownRun, MessageKnows;
    assert data[i..] == u;
    if u != [] {
      var k := UnknownAt(sk, data, i, MessageKnows);
      MessageUnknown(sk, data, ReadVarint(data, i).value.1, m, ReadVarint(data, i).value.0);
      MessageEnd(sk, data, k, m.(unrecognized := m.unrecognized + data[i..k]), data[k..]);
      assert data[i..k] + data[k..] == u;
      assert m.unrecognized + data[i..k] + data[k..] == m.unrecognized + u;
    } else {
      assert m.unrecognized + u == m.unrecognized;
    }
  }

  // Whatever unknown fields a message and its nested records carry are ones that a
  // reader would have collected; in particular when there are none.
  ghost predicate Collectable(sk: Skip, m: Message) {
    && Unknowns(sk, MessageKnows, m.unrecognized)
    && forall k :: 0 <= k < |m.fields| ==> Unknowns(sk, FieldKnows, m.fields[k].unrecognized)
  }

  /** The codec's central law, for every Message whose bytes fit in a slice. */
  lemma MessageRoundTrip(sk: Skip, m: Message)
    requires |MessageBytes(m)| <= MAX_INT && Collectable(sk, m)
    ensures MessageLoop(sk, MessageBytes(m), 0, EmptyMessage) == Decoded(Done, MessageReadBack(m))
  {
    hide MessageLoop, MessageHead, MessageTail, RepBytes, FieldRuns, At, Unknowns;
    var data := MessageBytes(m);
    var a, b, c := MessageHead(m), MessageTail(m), RepBytes(0x52, FieldRuns(m.fields));
    AtWhole(data);
    AtSplit(data, 0, a + b + c, m.unrecognized);
    AtSplit(data, 0, a + b, c);
    AtSplit(data, 0, a, b);
    MessageHeadRead(sk, data, m);
    var m1 := EmptyMessage.(uuid := EmptyAsNil(m.uuid), timestamp := m.timestamp, msgType := m.msgType,
                            logger := m.logger, severity := m.severity);
    MessageTailRead(sk, data, |a|, m1, m);
    var m2 := m1.(payload := m.payload, envVersion := m.envVersion, pid := m.pid, hostname := m.hostname);
    MessageFieldsRead(sk, data, |a + b|, m2, m.fields);
    assert m2.fields + m.fields == m.fields;
    var m3 := m2.(fields := m.fields);
    MessageEnd(sk, data, |a + b + c|, m3, m.unrecognized);
    assert [] + m.unrecognized == m.unrecognized;
  }

  /** The two ends together: Marshal's Size pass and in-place writers, then Unmarshal's
      loops into a fresh record. */
  method MarshalThenUnmarshal(sk: Skip, m: Message) returns (status: Status, back: Message)
    requires |MessageBytes(m)| <= MAX_INT && Collectable(sk, m)
    ensures status == Done && back == MessageReadBack(m)
  {
    hide MessageBytes, MessageLoop;
    var data := LogWriter.MessageMarshal(m);
    var reader := new MessageObject();
    status := reader.Unmarshal(sk, data);
    back := reader.rec;
    MessageRoundTrip(sk, m);
  }

  /** The record is exactly what comes back unless its uuid is empty but not nil. */
  lemma MessageExactRoundTrip(sk: Skip, m: Message)
    requires |MessageBytes(m)| <= MAX_INT && Collectable(sk, m)
    ensures MessageLoop(sk, MessageBytes(m), 0, EmptyMessage) == Decoded(Done, m) <==> m.uuid != Some([])
  {
    MessageRoundTrip(sk, m);
  }

  /** What the decoder accepts beyond well-formed input: a nested record made of
      any bytes at all is accepted, as far as it could be read, exactly when
      decoding it does not panic. */
  lemma NestedErrorDropped(sk: Skip, s: bytes)
    requires |TagBytes(0x52, s)| <= MAX_INT
    ensures var inner := FieldLoop(sk, s, 0, EmptyField);
            var outer := MessageLoop(sk, TagBytes(0x52, s), 0, EmptyMessage);
            && outer.rec == EmptyMessage.(fields := [inner.rec])
            && (outer.status == Done <==> inner.status != Panicked)
  {
    hide FieldLoop, VarintBytes, ReadVarint;
    var data := TagBytes(0x52, s);
    AtWhole(data);
    ReadRun(data, 0, 0x52, s);
    TagParts(0x52);
    assert [] + [FieldLoop(sk, s, 0, EmptyField).rec] == [FieldLoop(sk, s, 0, EmptyField).rec];
    MessageEnd(sk, data, |data|, EmptyMessage.(fields := [FieldLoop(sk, s, 0, EmptyField).rec]), []);
  }

  // A nested record cut off after its first tag: an error there, none outside.
  lemma TruncatedFieldAccepted(sk: Skip)
    ensures FieldLoop(sk, [0x0a], 0, EmptyField).status == UnexpectedEof
    ensures MessageLoop(sk, TagBytes(0x52, [0x0a]), 0, EmptyMessage) ==
            Decoded(Done, EmptyMessage.(fields := [EmptyField]))
  {
    var s: bytes := [0x0a];
    assert ReadVarint(s, 0) == Some((0x0a, 1));
    TagParts(0x0a);
    assert FieldLoop(sk, s, 0, EmptyField) == Decoded(UnexpectedEof, EmptyField);
    NestedErrorDropped(sk, s);
  }
}

/** Unmarshal of log_message.pb.go for arbitrary input bytes. Each record has a
    step function, one turn of the outer loop, and a loop function; a step that
    fails still leaves what was decoded before it, as the original does. */
module LogReader {
  import opened Prelude
  import opened Varint
  import opened LogRecords

  /** How a call ends. Panicked is a slice expression out of range; UnknownField is how
      a step asks for the default branch, and never how a loop ends. */
  datatype Status = Done | UnexpectedEof | WrongWireType | Panicked | UnknownField | SkipFailed

  /** proto.Skip: how many bytes the field at the front of some data takes, tag included,
      or an error. The library is a parameter; of it only this is taken to be known. */
  type Skip = bytes -> Option<Positive>

  type Positive = n: nat | n > 0 witness 1

  datatype Step<T> = Next(index: nat, rec: T) | Stop(status: Status, rec: T)

  datatype Decoded<T> = Decoded(status: Status, rec: T)

  datatype Chunk = Chunk(from: nat, to: nat) | NoChunk(status: Status)

  datatype Number = Number(value: nat, next: nat) | NoNumber(status: Status)

  // A length prefix: the index after it and the end it announces, computed in
  // 64-bit arithmetic and checked against the end of the data only.
  function LengthAt(data: bytes, i: nat): (r: Option<(nat, int)>)
    ensures r.Some? ==> i < r.value.0 <= |data| && r.value.1 <= |data|
  {
    match ReadVarint(data, i)
    case None => None
    case Some((v, j)) =>
      var post := AsInt64(j + AsInt64(v));
      if post > |data| then None else Some((j, post))
  }

  function Delimited(data: bytes, wireType: nat, i: nat): (r: Chunk)
    ensures r.Chunk? ==> i < r.from <= r.to <= |data|
  {
    if wireType != 2 then NoChunk(WrongWireType)
    else match LengthAt(data, i)
      case None => NoChunk(UnexpectedEof)
      case Some((j, post)) => if post < j then NoChunk(Panicked) else Chunk(j, post)
  }

  function Integer(data: bytes, wireType: nat, i: nat): (r: Number)
    ensures r.Number? ==> i < r.next <= |data|
  {
    if wireType != 0 then NoNumber(WrongWireType)
    else match ReadVarint(data, i)
      case None => NoNumber(UnexpectedEof)
      case Some((v, j)) => Number(v, j)
  }

  // The packed loops stop at the announced end but read up to the data's end.
  function IntegerRun(data: bytes, i: nat, post: int, acc: seq<int64>): (r: (seq<int64>, Option<nat>))
    ensures r.1.Some? ==> i <= r.1.value
    decreases |data| - i
  {
    if i >= post then (acc, Some(i))
    else match ReadVarint(data, i)
      case None => (acc, None)
      case Some((v, j)) => IntegerRun(data, j, post, acc + [AsInt64(v)])
  }

  function BoolRun(data: bytes, i: nat, post: int, acc: seq<bool>): (r: (seq<bool>, Option<nat>))
    ensures r.1.Some? ==> i <= r.1.value
    decreases |data| - i
  {
    if i >= post then (acc, Some(i))
    else match ReadVarint(data, i)
      case None => (acc, None)
      case Some((v, j)) => BoolRun(data, j, post, acc + [AsUint64(v) != 0])
  }

  function Fixed64At(data: bytes, i: nat): (v: uint64)
    requires i + 8 <= |data|
  {
    var b: seq<int> := data[i..i + 8];
    b[0] + b[1] * 0x100 + b[2] * 0x1_0000 + b[3] * 0x100_0000 + b[4] * 0x1_0000_0000 +
    b[5] * 0x100_0000_0000 + b[6] * 0x1_0000_0000_0000 + b[7] * 0x100_0000_0000_0000
  }

  function DoubleRun(data: bytes, i: nat, post: int, acc: seq<uint64>): (r: (seq<uint64>, Option<nat>))
    ensures r.1.Some? ==> i <= r.1.value
    decreases |data| - i
  {
    if i >= post then (acc, Some(i))
    else if i + 8 > |data| then (acc, None)
    else DoubleRun(data, i + 8, post, acc + [Fixed64At(data, i)])
  }

  // append(b, s...) on a possibly nil slice: nil stays nil when s is empty.
  function AppendBytes(b: Option<bytes>, s: bytes): Option<bytes> {
    match b
    case None => if s == [] then None else Some(s)
    case Some(x) => Some(x + s)
  }

  // ---- Unknown fields --------------------------------------------------------

  // The tag is read as if it had been written in the fewest bytes; from there the field
  // is skipped, and must end inside the data.
  function UnknownRun(sk: Skip, data: bytes, i: nat): (r: Chunk)
    requires ReadVarint(data, i).Some?
    ensures r.Chunk? ==> i <= r.from < r.to <= |data| && i < r.to
    ensures r.NoChunk? ==> r.status == SkipFailed || r.status == UnexpectedEof
  {
    var (v, j) := ReadVarint(data, i).value;
    TagFits(data, i);
    var from := j - |VarintBytes(AsUint64(v))|;
    match sk(data[from..])
    case None => NoChunk(SkipFailed)
    case Some(n) => if from + n > |data| then NoChunk(UnexpectedEof) else Chunk(from, from + n)
  }

  // A tag, cut to 64 bits, needs no more bytes than it was read from.
  lemma TagFits(data: bytes, i: nat)
    requires ReadVarint(data, i).Some?
    ensures var (v, j) := ReadVarint(data, i).value; i + |VarintBytes(AsUint64(v))| <= j
  {
    hide VarintBytes, ReadVarint;
    var (v, j) := ReadVarint(data, i).value;
    FewestBytes(data, i);
    FewerForLess(AsUint64(v), v);
  }

  lemma {:induction false} FewestBytes(data: bytes, i: nat)
    requires ReadVarint(data, i).Some?
    ensures var (v, j) := ReadVarint(data, i).value; i + |VarintBytes(v)| <= j
    decreases |data| - i
  {
    if data[i] >= 128 {
      FewestBytes(data, i + 1);
      var (w, j) := ReadVarint(data, i + 1).value;
      var v := data[i] - 128 + 128 * w;
      assert v / 128 == w;
    }
  }

  lemma {:induction false} FewerForLess(v: nat, w: nat)
    requires v <= w
    ensures |VarintBytes(v)| <= |VarintBytes(w)|
    decreases v
  {
    if v >= 128 {
      FewerForLess(v / 128, w / 128);
    }
  }

  method ScanUnknown(sk: Skip, data: bytes, i: nat, wire: uint64, j: nat) returns (r: Chunk)
    requires ReadVarint(data, i).Some?
    requires wire == AsUint64(ReadVarint(data, i).value.0) && j == ReadVarint(data, i).value.1
    ensures r == UnknownRun(sk, data, i)
  {
    hide ReadVarint, VarintBytes;
    TagFits(data, i);
    var sizeOfWire := SizeOfVarint(wire);
    var from := j - sizeOfWire;
    var skippy := sk(data[from..]);
    if skippy.None? {
      return NoChunk(SkipFailed);
    }
    if from + skippy.value > |data| {
      return NoChunk(UnexpectedEof);
    }
    return Chunk(from, from + skippy.value);
  }

  /** Where skipping starts and what it takes: one byte for every seven bits of the tag are
      stepped back over, however many it was written in. */
  lemma UnknownFrom(sk: Skip, data: bytes, i: nat)
    requires ReadVarint(data, i).Some? && UnknownRun(sk, data, i).Chunk?
    ensures var (v, j) := ReadVarint(data, i).value;
            var run := UnknownRun(sk, data, i);
            var n := j - run.from;
            && n >= 1 && AsUint64(v) < Pow2(7 * n) && (n > 1 ==> AsUint64(v) >= Pow2(7 * (n - 1)))
            && sk(data[run.from..]) == Some(run.to - run.from)
  {
    hide ReadVarint, VarintBytes, Pow2;
    VarintBounds(AsUint64(ReadVarint(data, i).value.0));
  }

  /** What a length prefix leads to, for every length: the run it announces if that lies
      within the data, an unexpected end if it ends beyond, and a slice panic if its end
      does not fit in a signed 64-bit integer. */
  lemma DelimitedIff(data: bytes, i: nat)
    requires |data| <= MAX_INT && ReadVarint(data, i).Some?
    ensures var (v, j) := ReadVarint(data, i).value;
            v < TWO_64 ==>
              && (v <= |data| - j ==> Delimited(data, 2, i) == Chunk(j, j + v))
              && (|data| - j < v <= MAX_INT - j ==> Delimited(data, 2, i) == NoChunk(UnexpectedEof))
              && (v > MAX_INT - j ==> Delimited(data, 2, i) == NoChunk(Panicked))
  {
    hide ReadVarint, AsInt64;
    var (v, j) := ReadVarint(data, i).value;
    if v < TWO_64 {
      EndOf(j, v);
    }
  }

  lemma EndOf(j: nat, v: uint64)
    requires j <= MAX_INT
    ensures v <= MAX_INT - j ==> AsInt64(j + AsInt64(v)) == j + v
    ensures v > MAX_INT - j ==> AsInt64(j + AsInt64(v)) < j
  {
  }

  // ---- Header --------------------------------------------------------------

  function HeaderCase(data: bytes, j: nat, m: Header, num: int, wt: nat): (r: Step<Header>)
    ensures r.Next? ==> j < r.index
  {
    if num == 1 || num == 3 || num == 5 then
      match Integer(data, wt, j)
      case NoNumber(s) => Stop(s, m)
      case Number(v, k) => Next(k, HeaderWithNumber(m, num, v))
    else if num == 4 || num == 6 then
      match Delimited(data, wt, j)
      case NoChunk(s) => Stop(s, m)
      case Chunk(a, b) => Next(b, HeaderWithBytes(m, num, data[a..b]))
    else Stop(UnknownField, m)
  }

  function HeaderWithNumber(m: Header, num: int, v: int): Header {
    if num == 1 then m.(messageLength := Some(AsUint32(v)))
    else if num == 3 then m.(hmacHashFunction := Some(AsInt32(v)))
    else m.(hmacKeyVersion := Some(AsUint32(v)))
  }

  function HeaderWithBytes(m: Header, num: int, s: bytes): Header {
    if num == 4 then m.(hmacSigner := Some(s)) else m.(hmac := AppendBytes(m.hmac, s))
  }

  function HeaderLoop(sk: Skip, data: bytes, i: nat, m: Header): Decoded<Header>
    decreases |data| - i
  {
    if i >= |data| then Decoded(Done, m)
    else match ReadVarint(data, i)
      case None => Decoded(UnexpectedEof, m)
      case Some((v, j)) =>
        match HeaderCase(data, j, m, FieldNumber(v), WireType(v))
        case Next(k, m') => HeaderLoop(sk, data, k, m')
        case Stop(UnknownField, _) =>
          (match UnknownRun(sk, data, i)
           case NoChunk(s) => Decoded(s, m)
           case Chunk(a, b) => HeaderLoop(sk, data, b, m.(unrecognized := m.unrecognized + data[a..b])))
        case Stop(s, m') => Decoded(s, m')
  }

  // int32(wire >> 3) and wire & 7 of a 64-bit tag.
  function FieldNumber(tag: nat): int32 {
    AsInt32(AsUint64(tag) / 8)
  }

  function WireType(tag: nat): nat {
    AsUint64(tag) % 8
  }

  // ---- Field ---------------------------------------------------------------

  function FieldCase(data: bytes, j: nat, m: Field, num: int, wt: nat): (r: Step<Field>)
    ensures r.Next? ==> j < r.index
  {
    if num == 1 || num == 3 || num == 4 || num == 5 then
      match Delimited(data, wt, j)
      case NoChunk(s) => Stop(s, m)
      case Chunk(a, b) => Next(b, FieldWithBytes(m, num, data[a..b]))
    else if num == 2 then
      match Integer(data, wt, j)
      case NoNumber(s) => Stop(s, m)
      case Number(v, k) => Next(k, m.(valueType := Some(AsInt32(v))))
    else if num == 6 then IntegerCase(data, j, m, wt)
    else if num == 7 then DoubleCase(data, j, m, wt)
    else if num == 8 then BoolCase(data, j, m, wt)
    else Stop(UnknownField, m)
  }

  function FieldWithBytes(m: Field, num: int, s: bytes): Field {
    if num == 1 then m.(name := Some(s))
    else if num == 3 then m.(representation := Some(s))
    else if num == 4 then m.(valueString := m.valueString + [s])
    else m.(valueBytes := m.valueBytes + [s])
  }

  function IntegerCase(data: bytes, j: nat, m: Field, wt: nat): (r: Step<Field>)
    ensures r.Next? ==> j < r.index
  {
    if wt == 2 then
      match LengthAt(data, j)
      case None => Stop(UnexpectedEof, m)
      case Some((k, post)) =>
        var (xs, end) := IntegerRun(data, k, post, m.valueInteger);
        if end.None? then Stop(UnexpectedEof, m.(valueInteger := xs))
        else Next(end.value, m.(valueInteger := xs))
    else
      match Integer(data, wt, j)
      case NoNumber(s) => Stop(s, m)
      case Number(v, k) => Next(k, m.(valueInteger := m.valueInteger + [AsInt64(v)]))
  }

  function DoubleCase(data: bytes, j: nat, m: Field, wt: nat): (r: Step<Field>)
    ensures r.Next? ==> j < r.index
  {
    if wt == 2 then
      match LengthAt(data, j)
      case None => Stop(UnexpectedEof, m)
      case Some((k, post)) =>
        var (xs, end) := DoubleRun(data, k, post, m.valueDouble);
        if end.None? then Stop(UnexpectedEof, m.(valueDouble := xs))
        else Next(end.value, m.(valueDouble := xs))
    else if wt != 1 then Stop(WrongWireType, m)
    else if j + 8 > |data| then Stop(UnexpectedEof, m)
    else Next(j + 8, m.(valueDouble := m.valueDouble + [Fixed64At(data, j)]))
  }

  function BoolCase(data: bytes, j: nat, m: Field, wt: nat): (r: Step<Field>)
    ensures r.Next? ==> j < r.index
  {
    if wt == 2 then
      match LengthAt(data, j)
      case None => Stop(UnexpectedEof, m)
      case Some((k, post)) =>
        var (xs, end) := BoolRun(data, k, post, m.valueBool);
        if end.None? then Stop(UnexpectedEof, m.(valueBool := xs))
        else Next(end.value, m.(valueBool := xs))
    else
      match Integer(data, wt, j)
      case NoNumber(s) => Stop(s, m)
      case Number(v, k) => Next(k, m.(valueBool := m.valueBool + [AsUint64(v) != 0]))
  }

  function FieldLoop(sk: Skip, data: bytes, i: nat, m: Field): Decoded<Field>
    decreases |data| - i
  {
    if i >= |data| then Decoded(Done, m)
    else match ReadVarint(data, i)
      case None => Decoded(UnexpectedEof, m)
      case Some((v, j)) =>
        match FieldCase(data, j, m, FieldNumber(v), WireType(v))
        case Next(k, m') => FieldLoop(sk, data, k, m')
        case Stop(UnknownField, _) =>
          (match UnknownRun(sk, data, i)
           case NoChunk(s) => Decoded(s, m)
           case Chunk(a, b) => FieldLoop(sk, data, b, m.(unrecognized := m.unrecognized + data[a..b])))
        case Stop(s, m') => Decoded(s, m')
  }

  // ---- Message -------------------------------------------------------------

  function MessageCase(sk: Skip, data: bytes, j: nat, m: Message, num: int, wt: nat): (r: Step<Message>)
    ensures r.Next? ==> j < r.index
  {
    if num == 2 || num == 5 || num == 8 then
      match Integer(data, wt, j)
      case NoNumber(s) => Stop(s, m)
      case Number(v, k) => Next(k, WithNumber(m, num, v))
    else if num == 1 || num == 3 || num == 4 || num == 6 || num == 7 || num == 9 then
      match Delimited(data, wt, j)
      case NoChunk(s) => Stop(s, m)
      case Chunk(a, b) => Next(b, WithBytes(m, num, data[a..b]))
    else if num == 10 then
      match Delimited(data, wt, j)
      case NoChunk(s) => Stop(s, if s == Panicked then m.(fields := m.fields + [EmptyField]) else m)
      case Chunk(a, b) => NestedCase(b, m, FieldLoop(sk, data[a..b], 0, EmptyField))
    else Stop(UnknownField, m)
  }

  function WithNumber(m: Message, num: int, v: int): Message {
    if num == 2 then m.(timestamp := Some(AsInt64(v)))
    else if num == 5 then m.(severity := Some(AsInt32(v)))
    else m.(pid := Some(AsInt32(v)))
  }

  function WithBytes(m: Message, num: int, s: bytes): Message {
    if num == 1 then m.(uuid := AppendBytes(m.uuid, s))
    else if num == 3 then m.(msgType := Some(s))
    else if num == 4 then m.(logger := Some(s))
    else if num == 6 then m.(payload := Some(s))
    else if num == 7 then m.(envVersion := Some(s))
    else m.(hostname := Some(s))
  }

  // The nested record is appended before its bytes are sliced and decoded, and its
  // error is dropped, so a broken Field is kept as far as it was read. A panic ends
  // the outer call too.
  function NestedCase(end: nat, m: Message, inner: Decoded<Field>): (r: Step<Message>)
    ensures r.Next? ==> r.index == end
    ensures r.Stop? ==> r.status == Panicked
  {
    var m' := m.(fields := m.fields + [inner.rec]);
    if inner.status == Panicked then Stop(Panicked, m') else Next(end, m')
  }

  function MessageLoop(sk: Skip, data: bytes, i: nat, m: Message): Decoded<Message>
    decreases |data| - i
  {
    if i >= |data| then Decoded(Done, m)
    else match ReadVarint(data, i)
      case None => Decoded(UnexpectedEof, m)
      case Some((v, j)) =>
        match MessageCase(sk, data, j, m, FieldNumber(v), WireType(v))
        case Next(k, m') => MessageLoop(sk, data, k, m')
        case Stop(UnknownField, _) =>
          (match UnknownRun(sk, data, i)
           case NoChunk(s) => Decoded(s, m)
           case Chunk(a, b) => MessageLoop(sk, data, b, m.(unrecognized := m.unrecognized + data[a..b])))
        case Stop(s, m') => Decoded(s, m')
  }

  // ---- The loops -----------------------------------------------------------

  lemma Pow2Widths()
    ensures Pow2(32) == TWO_32 && Pow2(64) == TWO_64
  {
    hide Pow2;
    Pow2Small();
    Pow2Group(4); Pow2Group(11); Pow2Group(18); Pow2Group(25);
    Pow2Group(1); Pow2Group(8); Pow2Group(15); Pow2Group(22); Pow2Group(29);
    Pow2Group(36); Pow2Group(43); Pow2Group(50); Pow2Group(57);
  }

  lemma Pow2Small()
    ensures Pow2(1) == 2 && Pow2(4) == 16
  {
    assert Pow2(4) == 2 * Pow2(3) == 4 * Pow2(2) == 8 * Pow2(1);
  }

  // A varint into a 64-bit variable, and into a 32-bit one.
  method Scan64(data: bytes, i: nat) returns (ok: bool, v: uint64, next: nat)
    ensures ok <==> ReadVarint(data, i).Some?
    ensures ok ==> ReadVarint(data, i) == Some((ReadVarint(data, i).value.0, next))
    ensures ok ==> v == AsUint64(ReadVarint(data, i).value.0)
  {
    Pow2Widths();
    var w;
    ok, w, next := ScanVarint(data, i, 64);
    v := if ok then w else 0;
  }

  method Scan32(data: bytes, i: nat) returns (ok: bool, v: uint32, next: nat)
    ensures ok <==> ReadVarint(data, i).Some?
    ensures ok ==> ReadVarint(data, i) == Some((ReadVarint(data, i).value.0, next))
    ensures ok ==> v == AsUint32(ReadVarint(data, i).value.0)
  {
    Pow2Widths();
    var w;
    ok, w, next := ScanVarint(data, i, 32);
    v := if ok then w else 0;
  }

  lemma Narrowing(v: nat)
    ensures AsInt32(AsUint32(v)) == AsInt32(v) && AsInt64(AsUint64(v)) == AsInt64(v)
  {
  }

  method ScanDelimited(data: bytes, wt: nat, i: nat) returns (c: Chunk)
    ensures c == Delimited(data, wt, i)
  {
    if wt != 2 {
      return NoChunk(WrongWireType);
    }
    var ok, len, j := Scan64(data, i);
    if !ok {
      return NoChunk(UnexpectedEof);
    }
    Narrowing(ReadVarint(data, i).value.0);
    var post := AsInt64(j + AsInt64(len));
    if post > |data| {
      return NoChunk(UnexpectedEof);
    }
    if post < j {
      return NoChunk(Panicked);
    }
    return Chunk(j, post);
  }

  method ScanLength(data: bytes, i: nat) returns (r: Option<(nat, int)>)
    ensures r == LengthAt(data, i)
  {
    var ok, len, j := Scan64(data, i);
    if !ok {
      return None;
    }
    Narrowing(ReadVarint(data, i).value.0);
    var post := AsInt64(j + AsInt64(len));
    return if post > |data| then None else Some((j, post));
  }

  method ScanIntegers(data: bytes, start: nat, post: int, acc: seq<int64>)
    returns (xs: seq<int64>, end: Option<nat>)
    ensures (xs, end) == IntegerRun(data, start, post, acc)
  {
    xs := acc;
    var index := start;
    while index < post
      invariant IntegerRun(data, index, post, xs) == IntegerRun(data, start, post, acc)
      decreases |data| - index
    {
      var ok, v, next := Scan64(data, index);
      if !ok {
        return xs, None;
      }
      Narrowing(ReadVarint(data, index).value.0);
      xs := xs + [AsInt64(v)];
      index := next;
    }
    end := Some(index);
  }

  method ScanDoubles(data: bytes, start: nat, post: int, acc: seq<uint64>)
    returns (xs: seq<uint64>, end: Option<nat>)
    ensures (xs, end) == DoubleRun(data, start, post, acc)
  {
    xs := acc;
    var index := start;
    while index < post
      invariant DoubleRun(data, index, post, xs) == DoubleRun(data, start, post, acc)
      decreases |data| - index
    {
      if index + 8 > |data| {
        return xs, None;
      }
      xs := xs + [Fixed64At(data, index)];
      index := index + 8;
    }
    end := Some(index);
  }

  method ScanBools(data: bytes, start: nat, post: int, acc: seq<bool>)
    returns (xs: seq<bool>, end: Option<nat>)
    ensures (xs, end) == BoolRun(data, start, post, acc)
  {
    xs := acc;
    var index := start;
    while index < post
      invariant BoolRun(data, index, post, xs) == BoolRun(data, start, post, acc)
      decreases |data| - index
    {
      var ok, v, next := Scan64(data, index);
      if !ok {
        return xs, None;
      }
      xs := xs + [v != 0];
      index := next;
    }
    end := Some(index);
  }

  /** A *Header: Unmarshal updates the record it points to. */
  class HeaderObject {
    var rec: Header

    constructor ()
      ensures rec == EmptyHeader
    {
      rec := EmptyHeader;
    }

    method Number(data: bytes, j: nat, num: int, wt: nat) returns (s: Status, next: nat)
      requires num == 1 || num == 3 || num == 5
      modifies this
      ensures s == Done ==> HeaderCase(data, j, old(rec), num, wt) == Next(next, rec)
      ensures s != Done ==> HeaderCase(data, j, old(rec), num, wt) == Stop(s, rec)
    {
      next := j;
      if wt != 0 {
        return WrongWireType, j;
      }
      var ok, v, k := Scan32(data, j);
      if !ok {
        return UnexpectedEof, j;
      }
      Narrowing(ReadVarint(data, j).value.0);
      rec := HeaderWithNumber(rec, num, v);
      return Done, k;
    }

    method Case(data: bytes, j: nat, num: int, wt: nat) returns (s: Status, next: nat)
      modifies this
      ensures s == Done ==> HeaderCase(data, j, old(rec), num, wt) == Next(next, rec)
      ensures s != Done ==> HeaderCase(data, j, old(rec), num, wt) == Stop(s, rec)
    {
      if num == 1 || num == 3 || num == 5 {
        s, next := Number(data, j, num, wt);
      } else if num == 4 || num == 6 {
        var c := ScanDelimited(data, wt, j);
        if c.NoChunk? {
          return c.status, j;
        }
        rec := HeaderWithBytes(rec, num, data[c.from..c.to]);
        return Done, c.to;
      } else {
        return UnknownField, j;
      }
    }

    method Unmarshal(sk: Skip, data: bytes) returns (status: Status)
      modifies this
      ensures Decoded(status, rec) == HeaderLoop(sk, data, 0, old(rec))
    {
      var index := 0;
      while index < |data|
        invariant HeaderLoop(sk, data, 0, old(rec)) == HeaderLoop(sk, data, index, rec)
        decreases |data| - index
      {
        var ok, wire, j := Scan64(data, index);
        if !ok {
          return UnexpectedEof;
        }
        var s, next := Case(data, j, AsInt32(wire / 8), wire % 8);
        if s == UnknownField {
          var unknown := ScanUnknown(sk, data, index, wire, j);
          if unknown.NoChunk? {
            return unknown.status;
          }
          rec := rec.(unrecognized := rec.unrecognized + data[unknown.from..unknown.to]);
          next := unknown.to;
        } else if s != Done {
          return s;
        }
        index := next;
      }
      return Done;
    }
  }

  /** A *Field. */
  class FieldObject {
    var rec: Field

    constructor ()
      ensures rec == EmptyField
    {
      rec := EmptyField;
    }

    method Text(data: bytes, j: nat, num: int, wt: nat) returns (s: Status, next: nat)
      requires num == 1 || num == 3 || num == 4 || num == 5
      modifies this
      ensures s == Done ==> FieldCase(data, j, old(rec), num, wt) == Next(next, rec)
      ensures s != Done ==> FieldCase(data, j, old(rec), num, wt) == Stop(s, rec)
    {
      var c := ScanDelimited(data, wt, j);
      if c.NoChunk? {
        return c.status, j;
      }
      rec := FieldWithBytes(rec, num, data[c.from..c.to]);
      return Done, c.to;
    }

    method Integers(data: bytes, j: nat, wt: nat) returns (s: Status, next: nat)
      modifies this
      ensures s == Done ==> IntegerCase(data, j, old(rec), wt) == Next(next, rec)
      ensures s != Done ==> IntegerCase(data, j, old(rec), wt) == Stop(s, rec)
    {
      if wt == 2 {
        var l := ScanLength(data, j);
        if l.None? {
          return UnexpectedEof, j;
        }
        var xs, end := ScanIntegers(data, l.value.0, l.value.1, rec.valueInteger);
        rec := rec.(valueInteger := xs);
        if end.None? {
          return UnexpectedEof, j;
        }
        return Done, end.value;
      }
      if wt != 0 {
        return WrongWireType, j;
      }
      var ok, v, k := Scan64(data, j);
      if !ok {
        return UnexpectedEof, j;
      }
      Narrowing(ReadVarint(data, j).value.0);
      rec := rec.(valueInteger := rec.valueInteger + [AsInt64(v)]);
      return Done, k;
    }

    method Doubles(data: bytes, j: nat, wt: nat) returns (s: Status, next: nat)
      modifies this
      ensures s == Done ==> DoubleCase(data, j, old(rec), wt) == Next(next, rec)
      ensures s != Done ==> DoubleCase(data, j, old(rec), wt) == Stop(s, rec)
    {
      if wt == 2 {
        var l := ScanLength(data, j);
        if l.None? {
          return UnexpectedEof, j;
        }
        var xs, end := ScanDoubles(data, l.value.0, l.value.1, rec.valueDouble);
        rec := rec.(valueDouble := xs);
        if end.None? {
          return UnexpectedEof, j;
        }
        return Done, end.value;
      }
      if wt != 1 {
        return WrongWireType, j;
      }
      if j + 8 > |data| {
        return UnexpectedEof, j;
      }
      rec := rec.(valueDouble := rec.valueDouble + [Fixed64At(data, j)]);
      return Done, j + 8;
    }

    method Booleans(data: bytes, j: nat, wt: nat) returns (s: Status, next: nat)
      modifies this
      ensures s == Done ==> BoolCase(data, j, old(rec), wt) == Next(next, rec)
      ensures s != Done ==> BoolCase(data, j, old(rec), wt) == Stop(s, rec)
    {
      if wt == 2 {
        var l := ScanLength(data, j);
        if l.None? {
          return UnexpectedEof, j;
        }
        var xs, end := ScanBools(data, l.value.0, l.value.1, rec.valueBool);
        rec := rec.(valueBool := xs);
        if end.None? {
          return UnexpectedEof, j;
        }
        return Done, end.value;
      }
      if wt != 0 {
        return WrongWireType, j;
      }
      var ok, v, k := Scan64(data, j);
      if !ok {
        return UnexpectedEof, j;
      }
      rec := rec.(valueBool := rec.valueBool + [v != 0]);
      return Done, k;
    }

    method Case(data: bytes, j: nat, num: int, wt: nat) returns (s: Status, next: nat)
      modifies this
      ensures s == Done ==> FieldCase(data, j, old(rec), num, wt) == Next(next, rec)
      ensures s != Done ==> FieldCase(data, j, old(rec), num, wt) == Stop(s, rec)
    {
      if num == 1 || num == 3 || num == 4 || num == 5 {
        s, next := Text(data, j, num, wt);
      } else if num == 2 {
        if wt != 0 {
          return WrongWireType, j;
        }
        var ok, v, k := Scan32(data, j);
        if !ok {
          return UnexpectedEof, j;
        }
        Narrowing(ReadVarint(data, j).value.0);
        rec := rec.(valueType := Some(AsInt32(v)));
        return Done, k;
      } else if num == 6 {
        s, next := Integers(data, j, wt);
      } else if num == 7 {
        s, next := Doubles(data, j, wt);
      } else if num == 8 {
        s, next := Booleans(data, j, wt);
      } else {
        return UnknownField, j;
      }
    }

    method Unmarshal(sk: Skip, data: bytes) returns (status: Status)
      modifies this
      ensures Decoded(status, rec) == FieldLoop(sk, data, 0, old(rec))
    {
      var index := 0;
      while index < |data|
        invariant FieldLoop(sk, data, 0, old(rec)) == FieldLoop(sk, data, index, rec)
        decreases |data| - index
      {
        var ok, wire, j := Scan64(data, index);
        if !ok {
          return UnexpectedEof;
        }
        var s, next := Case(data, j, AsInt32(wire / 8), wire % 8);
        if s == UnknownField {
          var unknown := ScanUnknown(sk, data, index, wire, j);
          if unknown.NoChunk? {
            return unknown.status;
          }
          rec := rec.(unrecognized := rec.unrecognized + data[unknown.from..unknown.to]);
          next := unknown.to;
        } else if s != Done {
          return s;
        }
        index := next;
      }
      return Done;
    }
  }

  /** A *Message. */
  class MessageObject {
    var rec: Message

    constructor ()
      ensures rec == EmptyMessage
    {
      rec := EmptyMessage;
    }

    method Number(sk: Skip, data: bytes, j: nat, num: int, wt: nat) returns (s: Status, next: nat)
      requires num == 2 || num == 5 || num == 8
      modifies this
      ensures s == Done ==> MessageCase(sk, data, j, old(rec), num, wt) == Next(next, rec)
      ensures s != Done ==> MessageCase(sk, data, j, old(rec), num, wt) == Stop(s, rec)
    {
      if wt != 0 {
        return WrongWireType, j;
      }
      var ok, v: uint64, k;
      if num == 2 {
        ok, v, k := Scan64(data, j);
      } else {
        ok, v, k := Scan32(data, j);
      }
      if !ok {
        return UnexpectedEof, j;
      }
      Narrowing(ReadVarint(data, j).value.0);
      rec := WithNumber(rec, num, v);
      return Done, k;
    }

    // Appends a fresh Field and decodes into it, ignoring its error.
    method Nested(sk: Skip, data: bytes, j: nat, wt: nat) returns (s: Status, next: nat)
      modifies this
      ensures s == Done ==> MessageCase(sk, data, j, old(rec), 10, wt) == Next(next, rec)
      ensures s != Done ==> MessageCase(sk, data, j, old(rec), 10, wt) == Stop(s, rec)
    {
      var c := ScanDelimited(data, wt, j);
      if c.NoChunk? {
        if c.status == Panicked {
          rec := rec.(fields := rec.fields + [EmptyField]);
        }
        return c.status, j;
      }
      var field := new FieldObject();
      var inner := field.Unmarshal(sk, data[c.from..c.to]);
      rec := rec.(fields := rec.fields + [field.rec]);
      if inner == Panicked {
        return Panicked, j;
      }
      return Done, c.to;
    }

    method Case(sk: Skip, data: bytes, j: nat, num: int, wt: nat) returns (s: Status, next: nat)
      modifies this
      ensures s == Done ==> MessageCase(sk, data, j, old(rec), num, wt) == Next(next, rec)
      ensures s != Done ==> MessageCase(sk, data, j, old(rec), num, wt) == Stop(s, rec)
    {
      if num == 2 || num == 5 || num == 8 {
        s, next := Number(sk, data, j, num, wt);
      } else if num == 10 {
        s, next := Nested(sk, data, j, wt);
      } else if 1 <= num <= 9 {
        var c := ScanDelimited(data, wt, j);
        if c.NoChunk? {
          return c.status, j;
        }
        rec := WithBytes(rec, num, data[c.from..c.to]);
        return Done, c.to;
      } else {
        return UnknownField, j;
      }
    }

    method Unmarshal(sk: Skip, data: bytes) returns (status: Status)
      modifies this
      ensures Decoded(status, rec) == MessageLoop(sk, data, 0, old(rec))
    {
      var index := 0;
      while index < |data|
        invariant MessageLoop(sk, data, 0, old(rec)) == MessageLoop(sk, data, index, rec)
        decreases |data| - index
      {
        var ok, wire, j := Scan64(data, index);
        if !ok {
          return UnexpectedEof;
        }
        var s, next := Case(sk, data, j, AsInt32(wire / 8), wire % 8);
        if s == UnknownField {
          var unknown := ScanUnknown(sk, data, index, wire, j);
          if unknown.NoChunk? {
            return unknown.status;
          }
          rec := rec.(unrecognized := rec.unrecognized + data[unknown.from..unknown.to]);
          next := unknown.to;
        } else if s != Done {
          return s;
        }
        index := next;
      }
      return Done;
    }
  }
}

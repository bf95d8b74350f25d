/** The three records of log_message.proto and the bytes each one stands for on
    the wire. A nil pointer or nil byte slice is None; a Go string is its bytes;
    a double is its 64-bit pattern. Bytes of unknown fields follow the known ones. */
module LogRecords {
  import opened Prelude
  import opened Varint

  datatype Header = Header(
    messageLength: Option<uint32>,
    hmacHashFunction: Option<int32>,
    hmacSigner: Option<bytes>,
    hmacKeyVersion: Option<uint32>,
    hmac: Option<bytes>,
    unrecognized: bytes)

  datatype Field = Field(
    name: Option<bytes>,
    valueType: Option<int32>,
    representation: Option<bytes>,
    valueString: seq<bytes>,
    valueBytes: seq<bytes>,
    valueInteger: seq<int64>,
    valueDouble: seq<uint64>,
    valueBool: seq<bool>,
    unrecognized: bytes)

  datatype Message = Message(
    uuid: Option<bytes>,
    timestamp: Option<int64>,
    msgType: Option<bytes>,
    logger: Option<bytes>,
    severity: Option<int32>,
    payload: Option<bytes>,
    envVersion: Option<bytes>,
    pid: Option<int32>,
    hostname: Option<bytes>,
    fields: seq<Field>,
    unrecognized: bytes)

  const EmptyHeader := Header(None, None, None, None, None, [])
  const EmptyField := Field(None, None, None, [], [], [], [], [], [])
  const EmptyMessage := Message(None, None, None, None, None, None, None, None, None, [], [])

  // A tag byte is the field number times eight plus the wire type.
  function TagVarint(tag: byte, v: nat): bytes {
    [tag] + VarintBytes(v)
  }

  function TagBytes(tag: byte, s: bytes): bytes {
    [tag] + VarintBytes(|s|) + s
  }

  // An optional integer is sent as 64 bits: signed values are sign-extended.
  function OptVarint(tag: byte, x: Option<int>): bytes {
    match x
    case None => []
    case Some(v) => TagVarint(tag, AsUint64(v))
  }

  // Severity and pid go through uint32 first, so negative ones take five bytes.
  function OptVarint32(tag: byte, x: Option<int>): bytes {
    match x
    case None => []
    case Some(v) => TagVarint(tag, AsUint32(v))
  }

  function OptBytes(tag: byte, s: Option<bytes>): bytes {
    match s
    case None => []
    case Some(b) => TagBytes(tag, b)
  }

  function RepBytes(tag: byte, ss: seq<bytes>): bytes {
    if ss == [] then []
    else RepBytes(tag, ss[..|ss| - 1]) + TagBytes(tag, ss[|ss| - 1])
  }

  function Varints(xs: seq<int64>): bytes {
    if xs == [] then []
    else Varints(xs[..|xs| - 1]) + VarintBytes(AsUint64(xs[|xs| - 1]))
  }

  // Eight bytes, lowest first.
  function Fixed64(v: uint64): (b: bytes)
    ensures |b| == 8
  {
    [v % 0x100, v / 0x100 % 0x100, v / 0x1_0000 % 0x100, v / 0x100_0000 % 0x100,
     v / 0x1_0000_0000 % 0x100, v / 0x100_0000_0000 % 0x100,
     v / 0x1_0000_0000_0000 % 0x100, v / 0x100_0000_0000_0000 % 0x100]
  }

  function Fixed64s(xs: seq<uint64>): (b: bytes)
    ensures |b| == 8 * |xs|
  {
    if xs == [] then [] else Fixed64s(xs[..|xs| - 1]) + Fixed64(xs[|xs| - 1])
  }

  function BoolByte(b: bool): byte {
    if b then 1 else 0
  }

  function Bools(xs: seq<bool>): (b: bytes)
    ensures |b| == |xs|
  {
    if xs == [] then [] else Bools(xs[..|xs| - 1]) + [BoolByte(xs[|xs| - 1])]
  }

  // A packed repeated field is one length-delimited run, absent when empty.
  function Packed(tag: byte, run: bytes): bytes {
    if run == [] then [] else TagBytes(tag, run)
  }

  function HeaderBytes(h: Header): bytes {
    HeaderKnown(h) + h.unrecognized
  }

  function HeaderKnown(h: Header): bytes {
    HeaderFront(h) + OptVarint(0x28, h.hmacKeyVersion) + OptBytes(0x32, h.hmac)
  }

  function HeaderFront(h: Header): bytes {
    OptVarint(0x08, h.messageLength) + OptVarint(0x18, h.hmacHashFunction) + OptBytes(0x22, h.hmacSigner)
  }

  function FieldBytes(f: Field): bytes {
    FieldScalars(f) + FieldLists(f) + FieldPacked(f) + f.unrecognized
  }

  function FieldScalars(f: Field): bytes {
    OptBytes(0x0a, f.name) + OptVarint(0x10, f.valueType) + OptBytes(0x1a, f.representation)
  }

  function FieldLists(f: Field): bytes {
    RepBytes(0x22, f.valueString) + RepBytes(0x2a, f.valueBytes)
  }

  function FieldPacked(f: Field): bytes {
    Packed(0x32, Varints(f.valueInteger)) + Packed(0x3a, Fixed64s(f.valueDouble)) +
    Packed(0x42, Bools(f.valueBool))
  }

  function FieldRuns(fs: seq<Field>): (ss: seq<bytes>)
    ensures |ss| == |fs|
    ensures forall k :: 0 <= k < |fs| ==> ss[k] == FieldBytes(fs[k])
  {
    seq(|fs|, k requires 0 <= k < |fs| => FieldBytes(fs[k]))
  }

  function MessageBytes(m: Message): bytes {
    MessageHead(m) + MessageTail(m) + RepBytes(0x52, FieldRuns(m.fields)) + m.unrecognized
  }

  function MessageHead(m: Message): bytes {
    OptBytes(0x0a, m.uuid) + OptVarint(0x10, m.timestamp) + OptBytes(0x1a, m.msgType) +
    OptBytes(0x22, m.logger) + OptVarint32(0x28, m.severity)
  }

  function MessageTail(m: Message): bytes {
    OptBytes(0x32, m.payload) + OptBytes(0x3a, m.envVersion) + OptVarint32(0x40, m.pid) +
    OptBytes(0x4a, m.hostname)
  }
}

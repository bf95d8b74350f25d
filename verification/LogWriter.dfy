/** Size and MarshalTo of log_message.pb.go. Every writer fills a caller's
    buffer in place at an offset, and is specified by the bytes it leaves
    there; every Size loop is specified by the length of those bytes. */
module LogWriter {
  import opened Prelude
  import opened Varint
  import opened LogRecords

  // ---- Size ----------------------------------------------------------------

  method SizeOfBytes(tag: byte, s: bytes) returns (n: nat)
    requires |s| <= MAX_INT
    ensures n == |TagBytes(tag, s)|
  {
    var l := SizeOfVarint(|s|);
    n := 1 + |s| + l;
  }

  method SizeOfOptBytes(tag: byte, s: Option<bytes>) returns (n: nat)
    requires |OptBytes(tag, s)| <= MAX_INT
    ensures n == |OptBytes(tag, s)|
  {
    n := 0;
    if s.Some? {
      n := SizeOfBytes(tag, s.value);
    }
  }

  method SizeOfOptVarint(tag: byte, x: Option<int>) returns (n: nat)
    ensures n == |OptVarint(tag, x)|
  {
    n := 0;
    if x.Some? {
      var l := SizeOfVarint(AsUint64(x.value));
      n := 1 + l;
    }
  }

  method SizeOfOptVarint32(tag: byte, x: Option<int>) returns (n: nat)
    ensures n == |OptVarint32(tag, x)|
  {
    n := 0;
    if x.Some? {
      var l := SizeOfVarint(AsUint32(x.value));
      n := 1 + l;
    }
  }

  // Every part of a repeated field fits where the whole does.
  lemma {:induction false} RepBytesFits(tag: byte, ss: seq<bytes>, k: nat)
    requires k < |ss|
    ensures RepBytes(tag, ss[..k + 1]) == RepBytes(tag, ss[..k]) + TagBytes(tag, ss[k])
    ensures |RepBytes(tag, ss[..k + 1])| <= |RepBytes(tag, ss)|
    decreases |ss|
  {
    assert ss[..k + 1][..k] == ss[..k];
    if k + 1 == |ss| {
      assert ss[..k + 1] == ss;
    } else {
      var rest := ss[..|ss| - 1];
      assert rest[..k + 1] == ss[..k + 1] && rest[..k] == ss[..k];
      RepBytesFits(tag, rest, k);
    }
  }

  method SizeOfRepBytes(tag: byte, ss: seq<bytes>) returns (n: nat)
    requires |RepBytes(tag, ss)| <= MAX_INT
    ensures n == |RepBytes(tag, ss)|
  {
    n := 0;
    for k := 0 to |ss|
      invariant n == |RepBytes(tag, ss[..k])|
    {
      RepBytesFits(tag, ss, k);
      var l := SizeOfBytes(tag, ss[k]);
      n := n + l;
    }
    assert ss[..|ss|] == ss;
  }

  lemma {:induction false} VarintsStep(xs: seq<int64>, k: nat)
    requires k < |xs|
    ensures Varints(xs[..k + 1]) == Varints(xs[..k]) + VarintBytes(AsUint64(xs[k]))
    ensures |Varints(xs[..k + 1])| <= |Varints(xs)|
    decreases |xs|
  {
    assert xs[..k + 1][..k] == xs[..k];
    if k + 1 == |xs| {
      assert xs[..k + 1] == xs;
    } else {
      var rest := xs[..|xs| - 1];
      assert rest[..k + 1] == xs[..k + 1] && rest[..k] == xs[..k];
      VarintsStep(rest, k);
    }
  }

  method SizeOfPacked(tag: byte, run: nat) returns (n: nat)
    requires 0 < run <= MAX_INT
    ensures n == 1 + |VarintBytes(run)| + run
  {
    var l := SizeOfVarint(run);
    n := 1 + l + run;
  }

  method SizeOfVarints(tag: byte, xs: seq<int64>) returns (n: nat)
    requires |Varints(xs)| <= MAX_INT
    ensures n == |Packed(tag, Varints(xs))|
  {
    if |xs| == 0 {
      return 0;
    }
    var l := 0;
    for k := 0 to |xs|
      invariant l == |Varints(xs[..k])|
    {
      VarintsStep(xs, k);
      var s := SizeOfVarint(AsUint64(xs[k]));
      l := l + s;
    }
    assert xs[..|xs|] == xs;
    n := SizeOfPacked(tag, l);
  }

  method HeaderSize(h: Header) returns (n: nat)
    requires |HeaderBytes(h)| <= MAX_INT
    ensures n == |HeaderBytes(h)|
  {
    var a := SizeOfOptVarint(0x08, h.messageLength);
    var b := SizeOfOptVarint(0x18, h.hmacHashFunction);
    var c := SizeOfOptBytes(0x22, h.hmacSigner);
    var d := SizeOfOptVarint(0x28, h.hmacKeyVersion);
    var e := SizeOfOptBytes(0x32, h.hmac);
    n := a + b + c + d + e + |h.unrecognized|;
  }

  lemma PackedSizes(f: Field)
    requires |FieldBytes(f)| <= MAX_INT
    ensures |FieldScalars(f)| <= MAX_INT && |FieldLists(f)| <= MAX_INT
    ensures |Varints(f.valueInteger)| <= MAX_INT
    ensures 8 * |f.valueDouble| <= MAX_INT && |f.valueBool| <= MAX_INT
  {
    assert |FieldBytes(f)| == |FieldScalars(f)| + |FieldLists(f)| + |FieldPacked(f)| + |f.unrecognized|;
  }

  method FieldSize(f: Field) returns (n: nat)
    requires |FieldBytes(f)| <= MAX_INT
    ensures n == |FieldBytes(f)|
  {
    PackedSizes(f);
    var a := SizeOfOptBytes(0x0a, f.name);
    var b := SizeOfOptVarint(0x10, f.valueType);
    var c := SizeOfOptBytes(0x1a, f.representation);
    n := a + b + c;
    var d := SizeOfRepBytes(0x22, f.valueString);
    var e := SizeOfRepBytes(0x2a, f.valueBytes);
    n := n + d + e;
    var g := SizeOfVarints(0x32, f.valueInteger);
    n := n + g;
    if |f.valueDouble| > 0 {
      var h := SizeOfPacked(0x3a, 8 * |f.valueDouble|);
      n := n + h;
    }
    if |f.valueBool| > 0 {
      var i := SizeOfPacked(0x42, |f.valueBool|);
      n := n + i;
    }
    n := n + |f.unrecognized|;
  }

  method MessageHeadSize(m: Message) returns (n: nat)
    requires |MessageHead(m)| <= MAX_INT
    ensures n == |MessageHead(m)|
  {
    var a := SizeOfOptBytes(0x0a, m.uuid);
    var b := SizeOfOptVarint(0x10, m.timestamp);
    var c := SizeOfOptBytes(0x1a, m.msgType);
    var d := SizeOfOptBytes(0x22, m.logger);
    var e := SizeOfOptVarint32(0x28, m.severity);
    n := a + b + c + d + e;
  }

  method MessageTailSize(m: Message) returns (n: nat)
    requires |MessageTail(m)| <= MAX_INT
    ensures n == |MessageTail(m)|
  {
    var a := SizeOfOptBytes(0x32, m.payload);
    var b := SizeOfOptBytes(0x3a, m.envVersion);
    var c := SizeOfOptVarint32(0x40, m.pid);
    var d := SizeOfOptBytes(0x4a, m.hostname);
    n := a + b + c + d;
  }

  method MessageSize(m: Message) returns (n: nat)
    requires |MessageBytes(m)| <= MAX_INT
    ensures n == |MessageBytes(m)|
  {
    hide MessageHead, MessageTail, FieldBytes, VarintBytes;
    ghost var runs := FieldRuns(m.fields);
    assert |MessageBytes(m)| == |MessageHead(m)| + |MessageTail(m)| + |RepBytes(0x52, runs)| + |m.unrecognized|;
    var a := MessageHeadSize(m);
    var b := MessageTailSize(m);
    n := a + b;
    for k := 0 to |m.fields|
      invariant n == a + b + |RepBytes(0x52, runs[..k])|
    {
      RepBytesFits(0x52, runs, k);
      var l := FieldSize(m.fields[k]);
      var s := SizeOfVarint(l);
      n := n + 1 + l + s;
    }
    assert runs[..|runs|] == runs;
    n := n + |m.unrecognized|;
  }

  // ---- MarshalTo -----------------------------------------------------------

  method WriteByte(data: array<byte>, i: nat, b: byte) returns (next: nat)
    requires i < data.Length
    modifies data
    ensures next == i + 1
    ensures data[..] == Put(old(data[..]), i, [b])
  {
    data[i] := b;
    next := i + 1;
  }

  // copy(data[i:], s) into a buffer with room for all of s.
  method CopyBytes(data: array<byte>, i: nat, s: bytes) returns (next: nat)
    requires i + |s| <= data.Length
    modifies data
    ensures next == i + |s|
    ensures data[..] == Put(old(data[..]), i, s)
  {
    forall k | 0 <= k < |s| {
      data[i + k] := s[k];
    }
    next := i + |s|;
  }

  method WriteTagVarint(data: array<byte>, i: nat, tag: byte, v: uint64) returns (next: nat)
    requires i + |TagVarint(tag, v)| <= data.Length
    modifies data
    ensures next == i + |TagVarint(tag, v)|
    ensures data[..] == Put(old(data[..]), i, TagVarint(tag, v))
  {
    var j := WriteByte(data, i, tag);
    next := WriteVarint(data, j, v);
    PutPut(old(data[..]), i, [tag], VarintBytes(v));
  }

  method WriteOptVarint(data: array<byte>, i: nat, tag: byte, x: Option<int>) returns (next: nat)
    requires i + |OptVarint(tag, x)| <= data.Length
    modifies data
    ensures next == i + |OptVarint(tag, x)|
    ensures data[..] == Put(old(data[..]), i, OptVarint(tag, x))
  {
    PutNothing(data[..], i);
    next := i;
    if x.Some? {
      next := WriteTagVarint(data, i, tag, AsUint64(x.value));
    }
  }

  method WriteOptVarint32(data: array<byte>, i: nat, tag: byte, x: Option<int>) returns (next: nat)
    requires i + |OptVarint32(tag, x)| <= data.Length
    modifies data
    ensures next == i + |OptVarint32(tag, x)|
    ensures data[..] == Put(old(data[..]), i, OptVarint32(tag, x))
  {
    PutNothing(data[..], i);
    next := i;
    if x.Some? {
      next := WriteTagVarint(data, i, tag, AsUint32(x.value));
    }
  }

  method WriteTagBytes(data: array<byte>, i: nat, tag: byte, s: bytes) returns (next: nat)
    requires |s| <= MAX_INT && i + |TagBytes(tag, s)| <= data.Length
    modifies data
    ensures next == i + |TagBytes(tag, s)|
    ensures data[..] == Put(old(data[..]), i, TagBytes(tag, s))
  {
    var j := WriteTagVarint(data, i, tag, |s|);
    next := CopyBytes(data, j, s);
    PutPut(old(data[..]), i, TagVarint(tag, |s|), s);
  }

  method WriteOptBytes(data: array<byte>, i: nat, tag: byte, s: Option<bytes>) returns (next: nat)
    requires |OptBytes(tag, s)| <= MAX_INT
    requires i + |OptBytes(tag, s)| <= data.Length
    modifies data
    ensures next == i + |OptBytes(tag, s)|
    ensures data[..] == Put(old(data[..]), i, OptBytes(tag, s))
  {
    PutNothing(data[..], i);
    next := i;
    if s.Some? {
      next := WriteTagBytes(data, i, tag, s.value);
    }
  }

  method WriteRepBytes(data: array<byte>, i: nat, tag: byte, ss: seq<bytes>) returns (next: nat)
    requires |RepBytes(tag, ss)| <= MAX_INT && i + |RepBytes(tag, ss)| <= data.Length
    modifies data
    ensures next == i + |RepBytes(tag, ss)|
    ensures data[..] == Put(old(data[..]), i, RepBytes(tag, ss))
  {
    hide Put;
    next := i;
    PutNothing(data[..], i);
    for k := 0 to |ss|
      invariant |RepBytes(tag, ss[..k])| <= |RepBytes(tag, ss)|
      invariant next == i + |RepBytes(tag, ss[..k])|
      invariant data[..] == Put(old(data[..]), i, RepBytes(tag, ss[..k]))
    {
      RepBytesFits(tag, ss, k);
      PutPut(old(data[..]), i, RepBytes(tag, ss[..k]), TagBytes(tag, ss[k]));
      next := WriteTagBytes(data, next, tag, ss[k]);
    }
    assert ss[..|ss|] == ss;
  }

  lemma {:induction false} VarintsAtMostTen(xs: seq<int64>)
    ensures |Varints(xs)| <= 10 * |xs|
  {
    if xs != [] {
      VarintsAtMostTen(xs[..|xs| - 1]);
      VarintAtMostTen(AsUint64(xs[|xs| - 1]));
    }
  }

  // The packed integers are first encoded into a scratch buffer of ten bytes
  // per element, of which the used part is kept.
  method PackVarints(xs: seq<int64>) returns (run: bytes)
    ensures run == Varints(xs)
  {
    var scratch := new byte[10 * |xs|];
    ghost var start := scratch[..];
    var j := 0;
    PutNothing(start, 0);
    VarintsAtMostTen(xs);
    for k := 0 to |xs|
      invariant j == |Varints(xs[..k])| && |start| == scratch.Length
      invariant j <= |Varints(xs)|
      invariant scratch[..] == Put(start, 0, Varints(xs[..k]))
    {
      VarintsStep(xs, k);
      PutPut(start, 0, Varints(xs[..k]), VarintBytes(AsUint64(xs[k])));
      j := WriteVarint(scratch, j, AsUint64(xs[k]));
    }
    assert xs[..|xs|] == xs;
    run := scratch[..j];
    assert run == scratch[..][..j];
  }

  method WriteVarints(data: array<byte>, i: nat, tag: byte, xs: seq<int64>) returns (next: nat)
    requires |Varints(xs)| <= MAX_INT && i + |Packed(tag, Varints(xs))| <= data.Length
    modifies data
    ensures next == i + |Packed(tag, Varints(xs))|
    ensures data[..] == Put(old(data[..]), i, Packed(tag, Varints(xs)))
  {
    PutNothing(data[..], i);
    if |xs| == 0 {
      return i;
    }
    var run := PackVarints(xs);
    next := WriteTagBytes(data, i, tag, run);
  }

  lemma {:induction false} Fixed64sStep(xs: seq<uint64>, k: nat)
    requires k < |xs|
    ensures Fixed64s(xs[..k + 1]) == Fixed64s(xs[..k]) + Fixed64(xs[k])
  {
    assert xs[..k + 1][..k] == xs[..k];
  }

  method WriteFixed64s(data: array<byte>, i: nat, tag: byte, xs: seq<uint64>) returns (next: nat)
    requires 8 * |xs| <= MAX_INT && i + |Packed(tag, Fixed64s(xs))| <= data.Length
    modifies data
    ensures next == i + |Packed(tag, Fixed64s(xs))|
    ensures data[..] == Put(old(data[..]), i, Packed(tag, Fixed64s(xs)))
  {
    hide Put, Fixed64;
    PutNothing(data[..], i);
    if |xs| == 0 {
      return i;
    }
    var j := WriteTagVarint(data, i, tag, 8 * |xs|);
    ghost var start := data[..];
    PutNothing(start, j);
    next := j;
    for k := 0 to |xs|
      invariant next == j + 8 * k && |start| == data.Length
      invariant data[..] == Put(start, j, Fixed64s(xs[..k]))
    {
      Fixed64sStep(xs, k);
      PutPut(start, j, Fixed64s(xs[..k]), Fixed64(xs[k]));
      next := CopyBytes(data, next, Fixed64(xs[k]));
    }
    assert xs[..|xs|] == xs;
    PutPut(old(data[..]), i, TagVarint(tag, 8 * |xs|), Fixed64s(xs));
  }

  method WriteBools(data: array<byte>, i: nat, tag: byte, xs: seq<bool>) returns (next: nat)
    requires |xs| <= MAX_INT && i + |Packed(tag, Bools(xs))| <= data.Length
    modifies data
    ensures next == i + |Packed(tag, Bools(xs))|
    ensures data[..] == Put(old(data[..]), i, Packed(tag, Bools(xs)))
  {
    hide Put;
    PutNothing(data[..], i);
    if |xs| == 0 {
      return i;
    }
    var j := WriteTagVarint(data, i, tag, |xs|);
    ghost var start := data[..];
    PutNothing(start, j);
    next := j;
    for k := 0 to |xs|
      invariant next == j + k && |start| == data.Length
      invariant data[..] == Put(start, j, Bools(xs[..k]))
    {
      assert xs[..k + 1][..k] == xs[..k];
      PutPut(start, j, Bools(xs[..k]), [BoolByte(xs[k])]);
      next := WriteByte(data, next, BoolByte(xs[k]));
    }
    assert xs[..|xs|] == xs;
    PutPut(old(data[..]), i, TagVarint(tag, |xs|), Bools(xs));
  }

  method HeaderMarshalTo(data: array<byte>, off: nat, h: Header) returns (n: nat)
    requires |HeaderBytes(h)| <= MAX_INT && off + |HeaderBytes(h)| <= data.Length
    modifies data
    ensures n == |HeaderBytes(h)|
    ensures data[..] == Put(old(data[..]), off, HeaderBytes(h))
  {
    hide Put, OptBytes, OptVarint, OptVarint32;
    ghost var start := data[..];
    ghost var a, b := OptVarint(0x08, h.messageLength), OptVarint(0x18, h.hmacHashFunction);
    ghost var c, d := OptBytes(0x22, h.hmacSigner), OptVarint(0x28, h.hmacKeyVersion);
    var i := WriteOptVarint(data, off, 0x08, h.messageLength);
    i := WriteOptVarint(data, i, 0x18, h.hmacHashFunction);
    PutPut(start, off, a, b);
    i := WriteOptBytes(data, i, 0x22, h.hmacSigner);
    PutPut(start, off, a + b, c);
    i := WriteOptVarint(data, i, 0x28, h.hmacKeyVersion);
    PutPut(start, off, a + b + c, d);
    i := WriteOptBytes(data, i, 0x32, h.hmac);
    ghost var e := OptBytes(0x32, h.hmac);
    PutPut(start, off, a + b + c + d, e);
    i := CopyBytes(data, i, h.unrecognized);
    PutPut(start, off, a + b + c + d + e, h.unrecognized);
    n := i - off;
  }

  method WriteFieldScalars(data: array<byte>, off: nat, f: Field) returns (i: nat)
    requires |FieldScalars(f)| <= MAX_INT && off + |FieldScalars(f)| <= data.Length
    modifies data
    ensures i == off + |FieldScalars(f)|
    ensures data[..] == Put(old(data[..]), off, FieldScalars(f))
  {
    hide Put, OptBytes, OptVarint, OptVarint32;
    ghost var start := data[..];
    i := WriteOptBytes(data, off, 0x0a, f.name);
    i := WriteOptVarint(data, i, 0x10, f.valueType);
    PutPut(start, off, OptBytes(0x0a, f.name), OptVarint(0x10, f.valueType));
    i := WriteOptBytes(data, i, 0x1a, f.representation);
    PutPut(start, off, OptBytes(0x0a, f.name) + OptVarint(0x10, f.valueType), OptBytes(0x1a, f.representation));
  }

  method WriteFieldPacked(data: array<byte>, off: nat, f: Field) returns (i: nat)
    requires |Varints(f.valueInteger)| <= MAX_INT && 8 * |f.valueDouble| <= MAX_INT && |f.valueBool| <= MAX_INT
    requires off + |FieldPacked(f)| <= data.Length
    modifies data
    ensures i == off + |FieldPacked(f)|
    ensures data[..] == Put(old(data[..]), off, FieldPacked(f))
  {
    hide Put, Packed, Varints, Fixed64s, Bools;
    ghost var start := data[..];
    ghost var a, b := Packed(0x32, Varints(f.valueInteger)), Packed(0x3a, Fixed64s(f.valueDouble));
    i := WriteVarints(data, off, 0x32, f.valueInteger);
    i := WriteFixed64s(data, i, 0x3a, f.valueDouble);
    PutPut(start, off, a, b);
    i := WriteBools(data, i, 0x42, f.valueBool);
    PutPut(start, off, a + b, Packed(0x42, Bools(f.valueBool)));
  }

  method FieldMarshalTo(data: array<byte>, off: nat, f: Field) returns (n: nat)
    requires |FieldBytes(f)| <= MAX_INT && off + |FieldBytes(f)| <= data.Length
    modifies data
    ensures n == |FieldBytes(f)|
    ensures data[..] == Put(old(data[..]), off, FieldBytes(f))
  {
    hide Put, FieldScalars, FieldPacked, RepBytes;
    ghost var start := data[..];
    PackedSizes(f);
    var i := WriteFieldScalars(data, off, f);
    ghost var strings, blobs := RepBytes(0x22, f.valueString), RepBytes(0x2a, f.valueBytes);
    i := WriteRepBytes(data, i, 0x22, f.valueString);
    PutPut(start, off, FieldScalars(f), strings);
    i := WriteRepBytes(data, i, 0x2a, f.valueBytes);
    PutPut(start, off, FieldScalars(f) + strings, blobs);
    i := WriteFieldPacked(data, i, f);
    PutPut(start, off, FieldScalars(f) + strings + blobs, FieldPacked(f));
    assert FieldScalars(f) + strings + blobs == FieldScalars(f) + FieldLists(f);
    i := CopyBytes(data, i, f.unrecognized);
    PutPut(start, off, FieldScalars(f) + FieldLists(f) + FieldPacked(f), f.unrecognized);
    n := i - off;
  }

  method WriteMessageHead(data: array<byte>, off: nat, m: Message) returns (i: nat)
    requires |MessageHead(m)| <= MAX_INT && off + |MessageHead(m)| <= data.Length
    modifies data
    ensures i == off + |MessageHead(m)|
    ensures data[..] == Put(old(data[..]), off, MessageHead(m))
  {
    hide Put, OptBytes, OptVarint, OptVarint32;
    ghost var start := data[..];
    ghost var a, b := OptBytes(0x0a, m.uuid), OptVarint(0x10, m.timestamp);
    ghost var c, d := OptBytes(0x1a, m.msgType), OptBytes(0x22, m.logger);
    i := WriteOptBytes(data, off, 0x0a, m.uuid);
    i := WriteOptVarint(data, i, 0x10, m.timestamp);
    PutPut(start, off, a, b);
    i := WriteOptBytes(data, i, 0x1a, m.msgType);
    PutPut(start, off, a + b, c);
    i := WriteOptBytes(data, i, 0x22, m.logger);
    PutPut(start, off, a + b + c, d);
    i := WriteOptVarint32(data, i, 0x28, m.severity);
    PutPut(start, off, a + b + c + d, OptVarint32(0x28, m.severity));
  }

  method WriteMessageTail(data: array<byte>, off: nat, m: Message) returns (i: nat)
    requires |MessageTail(m)| <= MAX_INT && off + |MessageTail(m)| <= data.Length
    modifies data
    ensures i == off + |MessageTail(m)|
    ensures data[..] == Put(old(data[..]), off, MessageTail(m))
  {
    hide Put, OptBytes, OptVarint, OptVarint32;
    ghost var start := data[..];
    ghost var a, b := OptBytes(0x32, m.payload), OptBytes(0x3a, m.envVersion);
    ghost var c, d := OptVarint32(0x40, m.pid), OptBytes(0x4a, m.hostname);
    i := WriteOptBytes(data, off, 0x32, m.payload);
    i := WriteOptBytes(data, i, 0x3a, m.envVersion);
    PutPut(start, off, a, b);
    i := WriteOptVarint32(data, i, 0x40, m.pid);
    PutPut(start, off, a + b, c);
    i := WriteOptBytes(data, i, 0x4a, m.hostname);
    PutPut(start, off, a + b + c, d);
  }

  // Tag, length from the nested Size, then the nested record written in place.
  method WriteNestedField(data: array<byte>, i: nat, f: Field) returns (next: nat)
    requires |TagBytes(0x52, FieldBytes(f))| <= MAX_INT && i + |TagBytes(0x52, FieldBytes(f))| <= data.Length
    modifies data
    ensures next == i + |TagBytes(0x52, FieldBytes(f))|
    ensures data[..] == Put(old(data[..]), i, TagBytes(0x52, FieldBytes(f)))
  {
    hide Put, FieldBytes;
    var size := FieldSize(f);
    var j := WriteTagVarint(data, i, 0x52, size);
    var n := FieldMarshalTo(data, j, f);
    PutPut(old(data[..]), i, TagVarint(0x52, size), FieldBytes(f));
    next := j + n;
  }

  lemma NoRuns(tag: byte)
    ensures RepBytes(tag, []) == []
  {
  }

  method MessageMarshalTo(data: array<byte>, off: nat, m: Message) returns (n: nat)
    requires |MessageBytes(m)| <= MAX_INT && off + |MessageBytes(m)| <= data.Length
    modifies data
    ensures n == |MessageBytes(m)|
    ensures data[..] == Put(old(data[..]), off, MessageBytes(m))
  {
    hide Put, MessageHead, MessageTail, FieldBytes, RepBytes, TagBytes, VarintBytes;
    NoRuns(0x52);
    ghost var start := data[..];
    ghost var runs := FieldRuns(m.fields);
    ghost var head := MessageHead(m) + MessageTail(m);
    assert |MessageBytes(m)| == |head| + |RepBytes(0x52, runs)| + |m.unrecognized|;
    var i := WriteMessageHead(data, off, m);
    i := WriteMessageTail(data, i, m);
    PutPut(start, off, MessageHead(m), MessageTail(m));
    assert runs[..0] == [] && head + [] == head;
    for k := 0 to |m.fields|
      invariant |RepBytes(0x52, runs[..k])| <= |RepBytes(0x52, runs)|
      invariant i == off + |head + RepBytes(0x52, runs[..k])| && |start| == data.Length
      invariant data[..] == Put(start, off, head + RepBytes(0x52, runs[..k]))
    {
      RepBytesFits(0x52, runs, k);
      ghost var done, next := head + RepBytes(0x52, runs[..k]), TagBytes(0x52, FieldBytes(m.fields[k]));
      PutPut(start, off, done, next);
      assert done + next == head + RepBytes(0x52, runs[..k + 1]);
      i := WriteNestedField(data, i, m.fields[k]);
    }
    assert runs[..|runs|] == runs;
    i := CopyBytes(data, i, m.unrecognized);
    PutPut(start, off, head + RepBytes(0x52, runs), m.unrecognized);
    n := i - off;
  }

  /** Marshal: a buffer of exactly Size bytes, filled to its end. */
  method MessageMarshal(m: Message) returns (data: bytes)
    requires |MessageBytes(m)| <= MAX_INT
    ensures data == MessageBytes(m)
  {
    var size := MessageSize(m);
    var buffer := new byte[size];
    var n := MessageMarshalTo(buffer, 0, m);
    data := buffer[..n];
    assert data == buffer[..];
  }

  method FieldMarshal(f: Field) returns (data: bytes)
    requires |FieldBytes(f)| <= MAX_INT
    ensures data == FieldBytes(f)
  {
    var size := FieldSize(f);
    var buffer := new byte[size];
    var n := FieldMarshalTo(buffer, 0, f);
    data := buffer[..n];
    assert data == buffer[..];
  }

  method HeaderMarshal(h: Header) returns (data: bytes)
    requires |HeaderBytes(h)| <= MAX_INT
    ensures data == HeaderBytes(h)
  {
    var size := HeaderSize(h);
    var buffer := new byte[size];
    var n := HeaderMarshalTo(buffer, 0, h);
    data := buffer[..n];
    assert data == buffer[..];
  }
}

/** The wire form of log messages as the Protocol Buffers specification has it: bytes
    split by tag and wire type alone, and a table of what stands under each field
    number. The writers' bytes are described by the table, with field numbers in order. */
module LogWire {
  import opened Prelude
  import opened Varint
  import opened LogRecords
  import opened LogReader
  import opened LogRoundTrip

  // ---- Splitting by tag and wire type -------------------------------------------

  datatype Content = Num(v: int) | Eight(b: bytes) | Run(s: bytes) | Four(b: bytes)

  datatype Item = Item(num: nat, content: Content)

  function Body(data: bytes, wireType: nat): (r: Option<(Content, bytes)>)
    ensures r.Some? ==> |r.value.1| <= |data|
  {
    match wireType
    case 0 => (match ReadVarint(data, 0)
               case None => None
               case Some((v, j)) => Some((Num(v), data[j..])))
    case 1 => if |data| < 8 then None else Some((Eight(data[..8]), data[8..]))
    case 2 => (match ReadVarint(data, 0)
               case None => None
               case Some((n, j)) => if |data| - j < n then None else Some((Run(data[j..j + n]), data[j + n..])))
    case 5 => if |data| < 4 then None else Some((Four(data[..4]), data[4..]))
    case _ => None
  }

  function NextItem(data: bytes): (r: Option<(Item, bytes)>)
    ensures r.Some? ==> |r.value.1| < |data|
  {
    match ReadVarint(data, 0)
    case None => None
    case Some((tag, j)) =>
      match Body(data[j..], tag % 8)
      case None => None
      case Some((c, rest)) => Some((Item(tag / 8, c), rest))
  }

  function Items(data: bytes): Option<seq<Item>>
    decreases |data|
  {
    if data == [] then Some([])
    else match NextItem(data)
      case None => None
      case Some((item, rest)) =>
        match Items(rest)
        case None => None
        case Some(items) => Some([item] + items)
  }

  // What stands under one field number, in order.
  function Contents(items: seq<Item>, k: nat): seq<Content> {
    if items == [] then []
    else
      var last, front := items[|items| - 1], Contents(items[..|items| - 1], k);
      if last.num == k then front + [last.content] else front
  }

  ghost predicate InOrder(items: seq<Item>) {
    forall i, j :: 0 <= i < j < |items| ==> items[i].num <= items[j].num
  }

  function SplitVarints(s: bytes): Option<seq<nat>>
    decreases |s|
  {
    if s == [] then Some([])
    else match ReadVarint(s, 0)
      case None => None
      case Some((v, j)) =>
        match SplitVarints(s[j..])
        case None => None
        case Some(vs) => Some([v] + vs)
  }

  // Eight bytes or any number, lowest first.
  function LittleEndian(s: bytes): nat {
    if s == [] then 0 else s[0] + 0x100 * LittleEndian(s[1..])
  }

  // ---- The tables ------------------------------------------------------------------

  // A negative number stands for itself plus 2^64, or 2^32 for severities and pids.
  function Unsigned64(x: int): int {
    if x < 0 then x + 0x1_0000_0000_0000_0000 else x
  }

  function Unsigned32(x: int): int {
    if x < 0 then x + 0x1_0000_0000 else x
  }

  function Number64(x: Option<int>): seq<Content> {
    if x.None? then [] else [Num(Unsigned64(x.value))]
  }

  function Number32(x: Option<int>): seq<Content> {
    if x.None? then [] else [Num(Unsigned32(x.value))]
  }

  function Text(s: Option<bytes>): seq<Content> {
    if s.None? then [] else [Run(s.value)]
  }

  function Runs(ss: seq<bytes>): seq<Content> {
    seq(|ss|, i requires 0 <= i < |ss| => Run(ss[i]))
  }

  function HeaderTable(h: Header, k: nat): seq<Content> {
    match k
    case 1 => Number64(h.messageLength)
    case 3 => Number64(h.hmacHashFunction)
    case 4 => Text(h.hmacSigner)
    case 5 => Number64(h.hmacKeyVersion)
    case 6 => Text(h.hmac)
    case _ => []
  }

  // The packed values, 6 to 8, are described by PackedEntry.
  function FieldTable(f: Field, k: nat): seq<Content> {
    match k
    case 1 => Text(f.name)
    case 2 => Number64(f.valueType)
    case 3 => Text(f.representation)
    case 4 => Runs(f.valueString)
    case 5 => Runs(f.valueBytes)
    case _ => []
  }

  ghost predicate PackedEntry(f: Field, k: nat, cs: seq<Content>) {
    match k
    case 6 => if f.valueInteger == [] then cs == [] else OneRun(cs) && IntegersIn(cs[0].s, f.valueInteger)
    case 7 => if f.valueDouble == [] then cs == [] else OneRun(cs) && DoublesIn(cs[0].s, f.valueDouble)
    case 8 => if f.valueBool == [] then cs == [] else OneRun(cs) && BoolsIn(cs[0].s, f.valueBool)
    case _ => cs == FieldTable(f, k)
  }

  ghost predicate OneRun(cs: seq<Content>) {
    |cs| == 1 && cs[0].Run?
  }

  ghost predicate IntegersIn(s: bytes, xs: seq<int64>) {
    var vs := SplitVarints(s);
    vs.Some? && |vs.value| == |xs| && forall i :: 0 <= i < |xs| ==> vs.value[i] == Unsigned64(xs[i])
  }

  ghost predicate DoublesIn(s: bytes, xs: seq<uint64>) {
    |s| == 8 * |xs| && forall i :: 0 <= i < |xs| ==> LittleEndian(s[8 * i..8 * i + 8]) == xs[i]
  }

  ghost predicate BoolsIn(s: bytes, xs: seq<bool>) {
    |s| == |xs| && forall i :: 0 <= i < |xs| ==> s[i] == if xs[i] then 1 else 0
  }

  // Nested fields, 10, are described by DescribesField.
  function MessageTable(m: Message, k: nat): seq<Content> {
    match k
    case 1 => Text(m.uuid)
    case 2 => Number64(m.timestamp)
    case 3 => Text(m.msgType)
    case 4 => Text(m.logger)
    case 5 => Number32(m.severity)
    case 6 => Text(m.payload)
    case 7 => Text(m.envVersion)
    case 8 => Number32(m.pid)
    case 9 => Text(m.hostname)
    case _ => []
  }

  // Data that ends with u, and the items before it, with their numbers in order.
  ghost predicate SplitsBefore(data: bytes, u: bytes, items: seq<Item>) {
    && |u| <= |data| && data[|data| - |u|..] == u
    && Items(data[..|data| - |u|]) == Some(items)
    && InOrder(items)
  }

  ghost predicate DescribesHeader(data: bytes, h: Header) {
    exists items :: SplitsBefore(data, h.unrecognized, items) &&
      forall k: nat :: Contents(items, k) == HeaderTable(h, k)
  }

  ghost predicate DescribesField(data: bytes, f: Field) {
    exists items :: SplitsBefore(data, f.unrecognized, items) &&
      forall k: nat :: PackedEntry(f, k, Contents(items, k))
  }

  ghost predicate DescribesMessage(data: bytes, m: Message) {
    exists items :: SplitsBefore(data, m.unrecognized, items) &&
      (forall k: nat :: k != 10 ==> Contents(items, k) == MessageTable(m, k)) &&
      NestedIn(Contents(items, 10), m.fields)
  }

  ghost predicate NestedIn(cs: seq<Content>, fs: seq<Field>) {
    |cs| == |fs| && forall i :: 0 <= i < |fs| ==> cs[i].Run? && DescribesField(cs[i].s, fs[i])
  }

  // ---- Items of concatenated bytes -----------------------------------------------

  lemma {:induction false} ReadPrefix(a: bytes, b: bytes, i: nat)
    requires ReadVarint(a, i).Some?
    ensures ReadVarint(a + b, i) == ReadVarint(a, i)
    decreases |a| - i
  {
    if a[i] >= 128 {
      ReadPrefix(a, b, i + 1);
    }
  }

  lemma BodyPrefix(a: bytes, b: bytes, wireType: nat)
    requires Body(a, wireType).Some?
    ensures Body(a + b, wireType) == Some((Body(a, wireType).value.0, Body(a, wireType).value.1 + b))
  {
    hide ReadVarint;
    if wireType == 0 || wireType == 2 {
      ReadPrefix(a, b, 0);
      var (n, j) := ReadVarint(a, 0).value;
      assert (a + b)[j..] == a[j..] + b;
      if wireType == 2 {
        assert (a + b)[j..j + n] == a[j..j + n];
        assert (a + b)[j + n..] == a[j + n..] + b;
      }
    } else if wireType == 1 {
      assert (a + b)[..8] == a[..8] && (a + b)[8..] == a[8..] + b;
    } else {
      assert (a + b)[..4] == a[..4] && (a + b)[4..] == a[4..] + b;
    }
  }

  lemma NextItemPrefix(a: bytes, b: bytes)
    requires NextItem(a).Some?
    ensures NextItem(a + b) == Some((NextItem(a).value.0, NextItem(a).value.1 + b))
  {
    hide ReadVarint, Body;
    ReadPrefix(a, b, 0);
    var (tag, j) := ReadVarint(a, 0).value;
    assert (a + b)[j..] == a[j..] + b;
    BodyPrefix(a[j..], b, tag % 8);
  }

  lemma {:induction false} ItemsConcat(a: bytes, b: bytes)
    requires Items(a).Some? && Items(b).Some?
    ensures Items(a + b) == Some(Items(a).value + Items(b).value)
    decreases |a|
  {
    hide NextItem;
    if a == [] {
      assert a + b == b && [] + Items(b).value == Items(b).value;
    } else {
      NextItemPrefix(a, b);
      var (item, rest) := NextItem(a).value;
      ItemsConcat(rest, b);
      assert [item] + (Items(rest).value + Items(b).value) == [item] + Items(rest).value + Items(b).value;
    }
  }

  function Tagged(k: nat, cs: seq<Content>): seq<Item> {
    seq(|cs|, i requires 0 <= i < |cs| => Item(k, cs[i]))
  }

  // The items of a table up to a field number.
  function Upto(t: nat -> seq<Content>, k: nat): seq<Item> {
    if k == 0 then [] else Upto(t, k - 1) + Tagged(k, t(k))
  }

  lemma {:induction false} ContentsConcat(a: seq<Item>, b: seq<Item>, k: nat)
    ensures Contents(a + b, k) == Contents(a, k) + Contents(b, k)
    decreases |b|
  {
    if b == [] {
      assert a + b == a;
    } else {
      assert (a + b)[..|a + b| - 1] == a + b[..|b| - 1];
      ContentsConcat(a, b[..|b| - 1], k);
    }
  }

  lemma {:induction false} ContentsTagged(k: nat, cs: seq<Content>, j: nat)
    ensures Contents(Tagged(k, cs), j) == if j == k then cs else []
    decreases |cs|
  {
    if cs != [] {
      var front := cs[..|cs| - 1];
      ContentsTagged(k, front, j);
      assert Tagged(k, cs)[..|cs| - 1] == Tagged(k, front);
      assert front + [cs[|cs| - 1]] == cs;
    }
  }

  lemma {:induction false} UptoContents(t: nat -> seq<Content>, k: nat, j: nat)
    ensures Contents(Upto(t, k), j) == if 1 <= j <= k then t(j) else []
    decreases k
  {
    hide Contents, Tagged;
    if k > 0 {
      UptoContents(t, k - 1, j);
      ContentsConcat(Upto(t, k - 1), Tagged(k, t(k)), j);
      ContentsTagged(k, t(k), j);
    } else {
      ContentsTagged(0, [], j);
      OneTagged(0);
    }
  }

  lemma {:induction false} UptoInOrder(t: nat -> seq<Content>, k: nat)
    ensures InOrder(Upto(t, k)) && forall i :: 0 <= i < |Upto(t, k)| ==> Upto(t, k)[i].num <= k
    decreases k
  {
    if k > 0 {
      UptoInOrder(t, k - 1);
    }
  }

  lemma UptoShape(t: nat -> seq<Content>, k: nat)
    ensures InOrder(Upto(t, k))
    ensures forall j: nat :: Contents(Upto(t, k), j) == if 1 <= j <= k then t(j) else []
  {
    hide Contents;
    UptoInOrder(t, k);
    forall j: nat ensures Contents(Upto(t, k), j) == if 1 <= j <= k then t(j) else [] {
      UptoContents(t, k, j);
    }
  }

  // One more field after those written so far.
  lemma Stage(d: bytes, piece: bytes, t: nat -> seq<Content>, k: nat)
    requires k > 0 && Items(d) == Some(Upto(t, k - 1)) && Items(piece) == Some(Tagged(k, t(k)))
    ensures Items(d + piece) == Some(Upto(t, k))
  {
    ItemsConcat(d, piece);
  }

  // Nothing is written under a number that the table leaves out.
  lemma SkipNumber(d: bytes, t: nat -> seq<Content>, k: nat)
    requires k > 0 && Items(d) == Some(Upto(t, k - 1)) && t(k) == []
    ensures Items(d) == Some(Upto(t, k))
  {
    assert Tagged(k, t(k)) == [] && Upto(t, k - 1) + [] == Upto(t, k - 1);
  }

  // ---- Items of the writers' pieces --------------------------------------------------

  lemma ReadWhole(v: nat, rest: bytes)
    ensures ReadVarint(VarintBytes(v) + rest, 0) == Some((v, |VarintBytes(v)|))
    ensures (VarintBytes(v) + rest)[|VarintBytes(v)|..] == rest
  {
    VarintRoundTrip(VarintBytes(v) + rest, 0, v);
  }

  lemma TagItem(tag: byte, body: bytes, c: Content)
    requires tag < 128 && Body(body, tag % 8) == Some((c, []))
    ensures Items([tag] + body) == Some([Item(tag / 8, c)])
  {
    hide Body;
    var data := [tag] + body;
    assert ReadVarint(data, 0) == Some((tag, 1)) && data[1..] == body;
    assert Items([]) == Some([]) && [Item(tag / 8, c)] + [] == [Item(tag / 8, c)];
  }

  lemma NumberItem(tag: byte, v: nat)
    requires tag < 128 && tag % 8 == 0
    ensures Items(TagVarint(tag, v)) == Some([Item(tag / 8, Num(v))])
  {
    hide ReadVarint, VarintBytes;
    ReadWhole(v, []);
    assert VarintBytes(v) + [] == VarintBytes(v);
    TagItem(tag, VarintBytes(v), Num(v));
  }

  lemma RunItem(tag: byte, s: bytes)
    requires tag < 128 && tag % 8 == 2
    ensures Items(TagBytes(tag, s)) == Some([Item(tag / 8, Run(s))])
  {
    hide ReadVarint, VarintBytes;
    var len := VarintBytes(|s|);
    ReadWhole(|s|, s);
    assert (len + s)[|len|..|len| + |s|] == s;
    TagItem(tag, len + s, Run(s));
    assert [tag] + (len + s) == TagBytes(tag, s);
  }

  lemma OneTagged(k: nat)
    ensures Tagged(k, []) == [] && forall c :: Tagged(k, [c]) == [Item(k, c)]
  {
  }

  lemma OptVarintItems(tag: byte, x: Option<int>)
    requires tag < 128 && tag % 8 == 0 && (x.Some? ==> -TWO_63 <= x.value < TWO_63)
    ensures Items(OptVarint(tag, x)) == Some(Tagged(tag / 8, Number64(x)))
  {
    if x.Some? {
      NumberItem(tag, AsUint64(x.value));
    }
    OneTagged(tag / 8);
  }

  lemma OptVarint32Items(tag: byte, x: Option<int>)
    requires tag < 128 && tag % 8 == 0 && (x.Some? ==> -TWO_31 <= x.value < TWO_31)
    ensures Items(OptVarint32(tag, x)) == Some(Tagged(tag / 8, Number32(x)))
  {
    if x.Some? {
      NumberItem(tag, AsUint32(x.value));
    }
    OneTagged(tag / 8);
  }

  lemma OptBytesItems(tag: byte, s: Option<bytes>)
    requires tag < 128 && tag % 8 == 2
    ensures Items(OptBytes(tag, s)) == Some(Tagged(tag / 8, Text(s)))
  {
    if s.Some? {
      RunItem(tag, s.value);
    }
    OneTagged(tag / 8);
  }

  lemma {:induction false} RepBytesItems(tag: byte, ss: seq<bytes>)
    requires tag < 128 && tag % 8 == 2
    ensures Items(RepBytes(tag, ss)) == Some(Tagged(tag / 8, Runs(ss)))
    decreases |ss|
  {
    hide TagBytes;
    if ss != [] {
      var front, last := ss[..|ss| - 1], ss[|ss| - 1];
      RepBytesItems(tag, front);
      RunItem(tag, last);
      ItemsConcat(RepBytes(tag, front), TagBytes(tag, last));
      assert Tagged(tag / 8, Runs(ss)) == Tagged(tag / 8, Runs(front)) + [Item(tag / 8, Run(last))];
    } else {
      assert Runs(ss) == [];
      OneTagged(tag / 8);
    }
  }

  // Whether a packed run is written, and as what.
  function PackedContents(run: bytes): seq<Content> {
    if run == [] then [] else [Run(run)]
  }

  lemma PackedItems(tag: byte, run: bytes)
    requires tag < 128 && tag % 8 == 2
    ensures Items(Packed(tag, run)) == Some(Tagged(tag / 8, PackedContents(run)))
  {
    if run != [] {
      RunItem(tag, run);
    }
    OneTagged(tag / 8);
  }

  lemma {:induction false} SplitVarintsConcat(a: bytes, v: nat)
    requires SplitVarints(a).Some?
    ensures SplitVarints(a + VarintBytes(v)) == Some(SplitVarints(a).value + [v])
    decreases |a|
  {
    hide VarintBytes, ReadVarint;
    var b := VarintBytes(v);
    if a == [] {
      ReadWhole(v, []);
      assert b + [] == b && a + b == b && b[|b|..] == [];
      assert SplitVarints([]) == Some([]) && [v] + [] == [v] && [] + [v] == [v];
    } else {
      ReadPrefix(a, b, 0);
      var (w, j) := ReadVarint(a, 0).value;
      assert (a + b)[j..] == a[j..] + b;
      SplitVarintsConcat(a[j..], v);
      assert [w] + (SplitVarints(a[j..]).value + [v]) == [w] + SplitVarints(a[j..]).value + [v];
    }
  }

  lemma {:induction false} VarintsSplit(xs: seq<int64>)
    ensures IntegersIn(Varints(xs), xs)
    decreases |xs|
  {
    hide VarintBytes;
    if xs != [] {
      VarintsSplit(xs[..|xs| - 1]);
      SplitVarintsConcat(Varints(xs[..|xs| - 1]), AsUint64(xs[|xs| - 1]));
    }
  }

  lemma {:induction false} DoublesSplit(xs: seq<uint64>)
    ensures DoublesIn(Fixed64s(xs), xs)
    decreases |xs|
  {
    hide Fixed64;
    if xs != [] {
      var front, last := xs[..|xs| - 1], xs[|xs| - 1];
      DoublesSplit(front);
      EightBytes(last);
      var s := Fixed64s(xs);
      forall i | 0 <= i < |xs| ensures LittleEndian(s[8 * i..8 * i + 8]) == xs[i] {
        if i < |front| {
          assert s[8 * i..8 * i + 8] == Fixed64s(front)[8 * i..8 * i + 8];
        } else {
          assert s[8 * i..8 * i + 8] == Fixed64(last);
        }
      }
    }
  }

  lemma EightBytes(v: uint64)
    ensures LittleEndian(Fixed64(v)) == v
  {
    hide Fixed64, Fixed64At;
    LittleEndianOfEight(Fixed64(v));
    AtWhole(Fixed64(v));
    Fixed64RoundTrip(Fixed64(v), 0, v);
  }

  lemma LittleEndianOfEight(b: bytes)
    requires |b| == 8
    ensures LittleEndian(b) == Fixed64At(b, 0)
  {
    hide LittleEndian;
    forall k | 0 <= k < 8 ensures LittleEndian(b[k..]) == b[k] as int + 0x100 * LittleEndian(b[k + 1..]) {
      LowestFirst(b[k..]);
      assert b[k..][1..] == b[k + 1..];
    }
    LowestFirst([]);
    assert b[8..] == [] && b[0..] == b && b[0..8] == b;
  }

  lemma LowestFirst(s: bytes)
    ensures LittleEndian(s) == if s == [] then 0 else s[0] as int + 0x100 * LittleEndian(s[1..])
  {
  }

  lemma {:induction false} BoolsSplit(xs: seq<bool>)
    ensures BoolsIn(Bools(xs), xs)
    decreases |xs|
  {
    if xs != [] {
      BoolsSplit(xs[..|xs| - 1]);
    }
  }

  // ---- The writers' bytes are described by the tables ------------------------------------

  lemma NothingYet(t: nat -> seq<Content>)
    ensures Items([]) == Some(Upto(t, 0))
  {
  }

  lemma Described(known: bytes, u: bytes, t: nat -> seq<Content>, k: nat)
    requires Items(known) == Some(Upto(t, k))
    ensures SplitsBefore(known + u, u, Upto(t, k))
    ensures forall j: nat :: Contents(Upto(t, k), j) == if 1 <= j <= k then t(j) else []
  {
    UptoShape(t, k);
    assert (known + u)[..|known|] == known && (known + u)[|known|..] == u;
  }

  function HeaderEntries(h: Header): nat -> seq<Content> {
    (k: nat) => HeaderTable(h, k)
  }

  /** The bytes of every header: its fields under 1, 3, 4, 5 and 6, in that order. */
  lemma HeaderDescribed(h: Header)
    ensures DescribesHeader(HeaderBytes(h), h)
  {
    hide Items, OptVarint, OptBytes, Number64, Text, Upto, Tagged, Contents;
    var t := HeaderEntries(h);
    var a, b, c := OptVarint(0x08, h.messageLength), OptVarint(0x18, h.hmacHashFunction), OptBytes(0x22, h.hmacSigner);
    var d, e := OptVarint(0x28, h.hmacKeyVersion), OptBytes(0x32, h.hmac);
    NothingYet(t);
    OptVarintItems(0x08, h.messageLength);
    Stage([], a, t, 1);
    assert [] + a == a;
    SkipNumber(a, t, 2);
    OptVarintItems(0x18, h.hmacHashFunction);
    Stage(a, b, t, 3);
    OptBytesItems(0x22, h.hmacSigner);
    Stage(a + b, c, t, 4);
    OptVarintItems(0x28, h.hmacKeyVersion);
    Stage(a + b + c, d, t, 5);
    OptBytesItems(0x32, h.hmac);
    Stage(a + b + c + d, e, t, 6);
    Described(a + b + c + d + e, h.unrecognized, t, 6);
    var items := Upto(t, 6);
    assert forall k: nat :: Contents(items, k) == HeaderTable(h, k);
  }

  // What the writers put under each number of a field.
  function FieldContents(f: Field, k: nat): seq<Content> {
    match k
    case 6 => PackedContents(Varints(f.valueInteger))
    case 7 => PackedContents(Fixed64s(f.valueDouble))
    case 8 => PackedContents(Bools(f.valueBool))
    case _ => FieldTable(f, k)
  }

  function FieldEntries(f: Field): nat -> seq<Content> {
    (k: nat) => FieldContents(f, k)
  }

  lemma FieldFrontItems(f: Field)
    ensures Items(FieldScalars(f) + FieldLists(f)) == Some(Upto(FieldEntries(f), 5))
  {
    hide Items, OptVarint, OptBytes, RepBytes, Number64, Text, Runs, Upto, Tagged;
    var t := FieldEntries(f);
    var a, b, c := OptBytes(0x0a, f.name), OptVarint(0x10, f.valueType), OptBytes(0x1a, f.representation);
    var d, e := RepBytes(0x22, f.valueString), RepBytes(0x2a, f.valueBytes);
    NothingYet(t);
    OptBytesItems(0x0a, f.name);
    Stage([], a, t, 1);
    assert [] + a == a;
    OptVarintItems(0x10, f.valueType);
    Stage(a, b, t, 2);
    OptBytesItems(0x1a, f.representation);
    Stage(a + b, c, t, 3);
    RepBytesItems(0x22, f.valueString);
    Stage(a + b + c, d, t, 4);
    RepBytesItems(0x2a, f.valueBytes);
    Stage(a + b + c + d, e, t, 5);
    assert a + b + c + (d + e) == a + b + c + d + e;
  }

  lemma FieldItems(f: Field)
    ensures Items(FieldScalars(f) + FieldLists(f) + FieldPacked(f)) == Some(Upto(FieldEntries(f), 8))
  {
    hide Items, FieldScalars, FieldLists, Packed, PackedContents, Varints, Fixed64s, Bools, Upto, Tagged;
    var t := FieldEntries(f);
    var front := FieldScalars(f) + FieldLists(f);
    var a, b, c := Varints(f.valueInteger), Fixed64s(f.valueDouble), Bools(f.valueBool);
    var x, y, z := Packed(0x32, a), Packed(0x3a, b), Packed(0x42, c);
    FieldFrontItems(f);
    PackedItems(0x32, a);
    Stage(front, x, t, 6);
    PackedItems(0x3a, b);
    Stage(front + x, y, t, 7);
    PackedItems(0x42, c);
    Stage(front + x + y, z, t, 8);
    assert front + (x + y + z) == front + x + y + z;
  }

  lemma PackedDescribed(f: Field, k: nat)
    ensures PackedEntry(f, k, FieldContents(f, k))
  {
    hide VarintBytes, IntegersIn, DoublesIn, BoolsIn;
    VarintsSplit(f.valueInteger);
    DoublesSplit(f.valueDouble);
    BoolsSplit(f.valueBool);
    SomeVarints(f.valueInteger);
  }

  lemma SomeVarints(xs: seq<int64>)
    ensures Varints(xs) == [] <==> xs == []
  {
  }

  /** The bytes of every field: its values under 1 to 8, in that order, the last three
      as one packed run each, absent when empty. */
  lemma FieldDescribed(f: Field)
    ensures DescribesField(FieldBytes(f), f)
  {
    hide Items, FieldScalars, FieldLists, FieldPacked, Upto, Contents, FieldContents, PackedEntry;
    var t := FieldEntries(f);
    FieldItems(f);
    Described(FieldScalars(f) + FieldLists(f) + FieldPacked(f), f.unrecognized, t, 8);
    var items := Upto(t, 8);
    forall k: nat ensures PackedEntry(f, k, Contents(items, k)) {
      PackedDescribed(f, k);
      NoSuchField(f, k);
    }
  }

  lemma NoSuchField(f: Field, k: nat)
    ensures k == 0 || k > 8 ==> FieldContents(f, k) == []
  {
  }

  function MessageContents(m: Message, k: nat): seq<Content> {
    if k == 10 then Runs(FieldRuns(m.fields)) else MessageTable(m, k)
  }

  function MessageEntries(m: Message): nat -> seq<Content> {
    (k: nat) => MessageContents(m, k)
  }

  lemma MessageHeadItems(m: Message)
    ensures Items(MessageHead(m)) == Some(Upto(MessageEntries(m), 5))
  {
    hide Items, OptVarint, OptVarint32, OptBytes, Number64, Number32, Text, Runs, Upto, Tagged;
    var t := MessageEntries(m);
    var a, b, c := OptBytes(0x0a, m.uuid), OptVarint(0x10, m.timestamp), OptBytes(0x1a, m.msgType);
    var d, e := OptBytes(0x22, m.logger), OptVarint32(0x28, m.severity);
    NothingYet(t);
    OptBytesItems(0x0a, m.uuid);
    Stage([], a, t, 1);
    assert [] + a == a;
    OptVarintItems(0x10, m.timestamp);
    Stage(a, b, t, 2);
    OptBytesItems(0x1a, m.msgType);
    Stage(a + b, c, t, 3);
    OptBytesItems(0x22, m.logger);
    Stage(a + b + c, d, t, 4);
    OptVarint32Items(0x28, m.severity);
    Stage(a + b + c + d, e, t, 5);
  }

  lemma MessageItems(m: Message)
    ensures Items(MessageHead(m) + MessageTail(m) + RepBytes(0x52, FieldRuns(m.fields))) ==
            Some(Upto(MessageEntries(m), 10))
  {
    hide Items, MessageHead, OptVarint32, OptBytes, RepBytes, FieldRuns, Number32, Text, Runs, Upto, Tagged;
    var t := MessageEntries(m);
    var head, nested := MessageHead(m), RepBytes(0x52, FieldRuns(m.fields));
    var a, b := OptBytes(0x32, m.payload), OptBytes(0x3a, m.envVersion);
    var c, d := OptVarint32(0x40, m.pid), OptBytes(0x4a, m.hostname);
    MessageHeadItems(m);
    OptBytesItems(0x32, m.payload);
    Stage(head, a, t, 6);
    OptBytesItems(0x3a, m.envVersion);
    Stage(head + a, b, t, 7);
    OptVarint32Items(0x40, m.pid);
    Stage(head + a + b, c, t, 8);
    OptBytesItems(0x4a, m.hostname);
    Stage(head + a + b + c, d, t, 9);
    RepBytesItems(0x52, FieldRuns(m.fields));
    Stage(head + a + b + c + d, nested, t, 10);
    assert head + (a + b + c + d) + nested == head + a + b + c + d + nested;
  }

  /** The bytes of every message: 1 uuid, 2 timestamp, 3 type, 4 logger, 5 severity,
      6 payload, 7 env version, 8 pid, 9 hostname and 10 the fields, in that order and
      nothing else, each field's bytes described in turn. */
  lemma MessageDescribed(m: Message)
    ensures DescribesMessage(MessageBytes(m), m)
  {
    hide Items, MessageHead, MessageTail, RepBytes, Upto, Contents, MessageTable, DescribesField, FieldBytes;
    var t := MessageEntries(m);
    MessageItems(m);
    Described(MessageHead(m) + MessageTail(m) + RepBytes(0x52, FieldRuns(m.fields)), m.unrecognized, t, 10);
    var items := Upto(t, 10);
    forall k: nat | k != 10 ensures Contents(items, k) == MessageTable(m, k) {
      NoSuchEntry(m, k);
    }
    forall i | 0 <= i < |m.fields| ensures DescribesField(FieldRuns(m.fields)[i], m.fields[i]) {
      FieldDescribed(m.fields[i]);
    }
    assert NestedIn(Contents(items, 10), m.fields);
  }

  lemma NoSuchEntry(m: Message, k: nat)
    ensures k == 0 || k > 10 ==> MessageTable(m, k) == []
  {
  }
}

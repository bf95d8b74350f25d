/** Reading a log message item by item: one item of a known number changes the entry of
    that number in the record's table, as its content says, and no other entry. */
module LogItems {
  import opened Prelude
  import opened Varint
  import opened LogRecords
  import opened LogReader
  import opened LogRoundTrip
  import opened LogWire

  // ---- One item read ------------------------------------------------------------------------

  // The content of an item as the readers meet it, from the index after its tag.
  ghost predicate ContentAt(data: bytes, v: nat, j: nat, c: Content, end: nat) {
    match c
    case Num(x) => v % 8 == 0 && x >= 0 && ReadVarint(data, j) == Some((x as nat, end))
    case Eight(b) => v % 8 == 1 && end == j + 8 <= |data| && b == data[j..end]
    case Run(s) => v % 8 == 2 && j < end - |s| && end <= |data| && LengthAt(data, j) == Some((end - |s|, end)) && s == data[end - |s|..end]
    case Four(_) => v % 8 == 5
  }

  lemma RunIsAt(data: bytes, v: nat, j: nat)
    requires |data| <= MAX_INT && j <= |data| && v % 8 == 2 && Body(data[j..], 2).Some?
    ensures var (c, rest) := Body(data[j..], 2).value;
            ContentAt(data, v, j, c, |data| - |rest|) && data[|data| - |rest|..] == rest
  {
    hide ReadVarint, AsInt64;
    ReadSuffix(data, j, 0);
    var (n, l) := ReadVarint(data[j..], 0).value;
    assert data[j..][l..l + n] == data[j + l..j + l + n] && data[j..][l + n..] == data[j + l + n..];
    PostIndex(j + l, n);
  }

  lemma ContentIsAt(data: bytes, v: nat, j: nat)
    requires |data| <= MAX_INT && j <= |data| && Body(data[j..], v % 8).Some?
    ensures var (c, rest) := Body(data[j..], v % 8).value;
            ContentAt(data, v, j, c, |data| - |rest|) && data[|data| - |rest|..] == rest
  {
    hide ReadVarint, LengthAt;
    if v % 8 == 2 {
      RunIsAt(data, v, j);
    } else if v % 8 == 0 {
      ReadSuffix(data, j, 0);
      var (_, l) := ReadVarint(data[j..], 0).value;
      assert data[j..][l..] == data[j + l..];
    } else if v % 8 == 1 {
      assert data[j..][..8] == data[j..j + 8] && data[j..][8..] == data[j + 8..];
    } else {
      assert data[j..][4..] == data[j + 4..];
    }
  }

  // The item at index i as the readers meet it.
  lemma ItemAt(data: bytes, i: nat) returns (v: nat, j: nat, end: nat)
    requires |data| <= MAX_INT && i < |data| && NextItem(data[i..]).Some?
    ensures var (item, rest) := NextItem(data[i..]).value;
            && ReadVarint(data, i) == Some((v, j)) && item.num == v / 8 && end <= |data| && data[end..] == rest
            && (item.num <= 10 ==> FieldNumber(v) == item.num && WireType(v) == v % 8)
            && ContentAt(data, v, j, item.content, end)
  {
    hide ReadVarint, FieldNumber, WireType, Body, ContentAt;
    ReadSuffix(data, i, 0);
    var (tag, k) := ReadVarint(data[i..], 0).value;
    v, j := tag, i + k;
    assert data[i..][k..] == data[j..];
    var (item, rest) := NextItem(data[i..]).value;
    end := |data| - |rest|;
    ContentIsAt(data, v, j);
    if v / 8 <= 10 {
      SmallTag(v);
    }
  }

  lemma SmallTag(v: nat)
    requires v / 8 <= 10
    ensures FieldNumber(v) == v / 8 && WireType(v) == v % 8
  {
  }

  // ---- Header, one item

  predicate HeaderTakes(k: nat, c: Content) {
    if k == 1 || k == 3 || k == 5 then c.Num? else c.Run?
  }

  // Reading an item of number k into m: the entry of k alone changes.
  ghost predicate HeaderSets(m: Header, m': Header, k: nat, c: Content)
    requires HeaderTakes(k, c)
  {
    && m'.unrecognized == m.unrecognized
    && (forall j: nat :: j != k ==> HeaderTable(m', j) == HeaderTable(m, j))
    && match k
       case 1 => HeaderTable(m', 1) == [Num(c.v % 0x1_0000_0000)]
       case 3 => IsNumber(HeaderTable(m', 3), c.v)
       case 5 => HeaderTable(m', 5) == [Num(c.v % 0x1_0000_0000)]
       case 6 => HeaderTable(m', 6) == Appended(HeaderTable(m, 6), c.s)
       case _ => HeaderTable(m', k) == [c]
  }

  // A signed 32-bit number with the low 32 bits of v, sign-extended.
  ghost predicate IsNumber(cs: seq<Content>, v: int) {
    && |cs| == 1 && cs[0].Num? && cs[0].v % 0x1_0000_0000 == v % 0x1_0000_0000
    && (0 <= cs[0].v < 0x8000_0000 || 0xffff_ffff_8000_0000 <= cs[0].v < 0x1_0000_0000_0000_0000)
  }

  // Bytes are appended to what was there, and nil stays nil when there are none.
  function Appended(old_: seq<Content>, s: bytes): seq<Content> {
    if old_ == [] then if s == [] then [] else [Run(s)]
    else if old_[0].Run? then [Run(old_[0].s + s)] else old_
  }

  lemma HeaderTurnAt(sk: Skip, data: bytes, i: nat, m: Header, v: nat, j: nat)
    requires i < |data| && ReadVarint(data, i) == Some((v, j)) && HeaderKnows(FieldNumber(v))
    ensures HeaderLoop(sk, data, i, m) == match HeaderCase(data, j, m, FieldNumber(v), WireType(v))
                                          case Next(k, m') => HeaderLoop(sk, data, k, m')
                                          case Stop(s, m') => Decoded(s, m')
    ensures HeaderCase(data, j, m, FieldNumber(v), WireType(v)).Stop? ==>
              HeaderCase(data, j, m, FieldNumber(v), WireType(v)).status != UnknownField
  {
    hide ReadVarint, FieldNumber, WireType, AsInt64, LengthAt;
  }

  lemma Low32(v: nat)
    ensures AsUint32(v) == v % 0x1_0000_0000
    ensures IsNumber(Number64(Some(AsInt32(v))), v)
    ensures Number32(Some(AsInt32(v))) == [Num(v % 0x1_0000_0000)]
    ensures Number64(Some(AsInt64(v))) == [Num(v % 0x1_0000_0000_0000_0000)]
    ensures Number64(Some(AsUint32(v))) == [Num(v % 0x1_0000_0000)]
  {
  }

  /** One item of a known number: of the kind the table has under it, it sets that entry
      and no other; of another kind, it ends the call. */
  lemma HeaderItemRead(sk: Skip, data: bytes, i: nat, m: Header) returns (m': Header, end: nat)
    requires |data| <= MAX_INT && i < |data| && NextItem(data[i..]).Some? && HeaderKnows(NextItem(data[i..]).value.0.num)
    ensures end <= |data| && data[end..] == NextItem(data[i..]).value.1
    ensures var item := NextItem(data[i..]).value.0;
            if HeaderTakes(item.num, item.content)
            then HeaderSets(m, m', item.num, item.content) && HeaderLoop(sk, data, i, m) == HeaderLoop(sk, data, end, m')
            else HeaderLoop(sk, data, i, m) == Decoded(WrongWireType, m)
  {
    hide ReadVarint, NextItem, FieldNumber, WireType, HeaderLoop, LengthAt;
    var v, j;
    v, j, end := ItemAt(data, i);
    var item := NextItem(data[i..]).value.0;
    HeaderTurnAt(sk, data, i, m, v, j);
    m' := m;
    if HeaderTakes(item.num, item.content) {
      m' := HeaderItemSet(data, m, v, j, item, end);
    }
  }

  lemma HeaderItemSet(data: bytes, m: Header, v: nat, j: nat, item: Item, end: nat) returns (m': Header)
    requires HeaderKnows(item.num) && HeaderTakes(item.num, item.content) && ContentAt(data, v, j, item.content, end)
    ensures HeaderSets(m, m', item.num, item.content)
    ensures HeaderCase(data, j, m, item.num, v % 8) == Next(end, m')
  {
    hide ReadVarint, LengthAt, AsInt64, AsInt32, AsUint32, Number64;
    match item.content
    case Num(x) => m' := HeaderWithNumber(m, item.num, x); Low32(x);
    case Run(s) => m' := HeaderWithBytes(m, item.num, s);
    case _ => assert false;
  }

  // ---- Message, one item

  predicate MessageTakes(k: nat, c: Content) {
    if k == 2 || k == 5 || k == 8 then c.Num? else c.Run?
  }

  ghost predicate MessageSets(sk: Skip, m: Message, m': Message, k: nat, c: Content)
    requires MessageTakes(k, c)
  {
    && m'.unrecognized == m.unrecognized
    && (forall j: nat :: j != k ==> MessageTable(m', j) == MessageTable(m, j))
    && (k != 10 ==> m'.fields == m.fields)
    && match k
       case 1 => MessageTable(m', 1) == Appended(MessageTable(m, 1), c.s)
       case 2 => MessageTable(m', 2) == [Num(c.v % 0x1_0000_0000_0000_0000)]
       case 5 => MessageTable(m', 5) == [Num(c.v % 0x1_0000_0000)]
       case 8 => MessageTable(m', 8) == [Num(c.v % 0x1_0000_0000)]
       case 10 => m'.fields == m.fields + [FieldLoop(sk, c.s, 0, EmptyField).rec]
       case _ => MessageTable(m', k) == [c]
  }

  lemma MessageTurnAt(sk: Skip, data: bytes, i: nat, m: Message, v: nat, j: nat)
    requires i < |data| && ReadVarint(data, i) == Some((v, j)) && MessageKnows(FieldNumber(v))
    ensures MessageLoop(sk, data, i, m) == match MessageCase(sk, data, j, m, FieldNumber(v), WireType(v))
                                           case Next(k, m') => MessageLoop(sk, data, k, m')
                                           case Stop(s, m') => Decoded(s, m')
  {
    hide ReadVarint, FieldNumber, WireType, AsInt64, LengthAt, FieldLoop;
  }

  /** One item of a known number: it sets the entry of that number and no other, or ends
      the call if it is of another kind or a nested field panics. */
  lemma MessageItemRead(sk: Skip, data: bytes, i: nat, m: Message) returns (m': Message, end: nat)
    requires |data| <= MAX_INT && i < |data| && NextItem(data[i..]).Some? && MessageKnows(NextItem(data[i..]).value.0.num)
    ensures end <= |data| && data[end..] == NextItem(data[i..]).value.1
    ensures var item := NextItem(data[i..]).value.0;
            if MessageTakes(item.num, item.content)
            then
              && MessageSets(sk, m, m', item.num, item.content)
              && MessageLoop(sk, data, i, m) ==
                 if item.num == 10 && FieldLoop(sk, item.content.s, 0, EmptyField).status == Panicked then Decoded(Panicked, m')
                 else MessageLoop(sk, data, end, m')
            else MessageLoop(sk, data, i, m) == Decoded(WrongWireType, m)
  {
    hide ReadVarint, NextItem, FieldNumber, WireType, MessageLoop, FieldLoop, LengthAt;
    var v, j;
    v, j, end := ItemAt(data, i);
    var item := NextItem(data[i..]).value.0;
    MessageTurnAt(sk, data, i, m, v, j);
    m' := m;
    if MessageTakes(item.num, item.content) {
      m' := MessageItemSet(sk, data, m, v, j, item, end);
    }
  }

  lemma MessageItemSet(sk: Skip, data: bytes, m: Message, v: nat, j: nat, item: Item, end: nat) returns (m': Message)
    requires MessageKnows(item.num) && MessageTakes(item.num, item.content) && ContentAt(data, v, j, item.content, end)
    ensures MessageSets(sk, m, m', item.num, item.content)
    ensures MessageCase(sk, data, j, m, item.num, v % 8) ==
            if item.num == 10 && FieldLoop(sk, item.content.s, 0, EmptyField).status == Panicked then Stop(Panicked, m')
            else Next(end, m')
  {
    hide ReadVarint, LengthAt, AsInt64, AsInt32, AsUint32, Number64, Number32, FieldLoop;
    match item.content
    case Num(x) => m' := WithNumber(m, item.num, x); Low32(x);
    case Run(s) =>
      if item.num == 10 {
        m' := m.(fields := m.fields + [FieldLoop(sk, s, 0, EmptyField).rec]);
      } else {
        m' := WithBytes(m, item.num, s);
      }
    case _ => assert false;
  }

  // ---- Field, one item

  predicate FieldTakes(k: nat, c: Content) {
    match k
    case 2 => c.Num?
    case 6 => c.Num? || c.Run?
    case 7 => c.Eight? || c.Run?
    case 8 => c.Num? || c.Run?
    case _ => c.Run?
  }

  // A packed run that divides into values.
  predicate WellPacked(k: nat, c: Content) {
    c.Run? ==> if k == 7 then |c.s| % 8 == 0 else (k == 6 || k == 8) ==> SplitVarints(c.s).Some?
  }

  // The numbers an item of 6 or 8 holds.
  function Values(c: Content): seq<int> {
    match c
    case Num(v) => [v]
    case Run(s) => if SplitVarints(s).Some? then SplitVarints(s).value else []
    case _ => []
  }

  ghost predicate IntegersAre(xs: seq<int64>, vs: seq<int>) {
    |xs| == |vs| && forall i :: 0 <= i < |xs| ==> Unsigned64(xs[i]) == vs[i] % 0x1_0000_0000_0000_0000
  }

  ghost predicate BoolsAre(xs: seq<bool>, vs: seq<int>) {
    |xs| == |vs| && forall i :: 0 <= i < |xs| ==> (xs[i] <==> vs[i] % 0x1_0000_0000_0000_0000 != 0)
  }

  ghost predicate FieldSets(m: Field, m': Field, k: nat, c: Content)
    requires FieldTakes(k, c)
  {
    && m'.unrecognized == m.unrecognized
    && (forall j: nat :: j != k ==> FieldTable(m', j) == FieldTable(m, j))
    && (k != 6 ==> m'.valueInteger == m.valueInteger)
    && (k != 7 ==> m'.valueDouble == m.valueDouble)
    && (k != 8 ==> m'.valueBool == m.valueBool)
    && match k
       case 2 => IsNumber(FieldTable(m', 2), c.v)
       case 4 => FieldTable(m', 4) == FieldTable(m, 4) + [c]
       case 5 => FieldTable(m', 5) == FieldTable(m, 5) + [c]
       case 6 => m.valueInteger <= m'.valueInteger && IntegersAre(m'.valueInteger[|m.valueInteger|..], Values(c))
       case 7 => m.valueDouble <= m'.valueDouble && DoublesIn(if c.Eight? then c.b else c.s, m'.valueDouble[|m.valueDouble|..])
       case 8 => m.valueBool <= m'.valueBool && BoolsAre(m'.valueBool[|m.valueBool|..], Values(c))
       case _ => FieldTable(m', k) == [c]
  }

  // A varint inside a run is the same in the data around it.
  lemma ReadInside(data: bytes, i: nat, post: nat)
    requires i <= post <= |data| && ReadVarint(data[i..post], 0).Some?
    ensures var (v, j) := ReadVarint(data[i..post], 0).value;
            ReadVarint(data, i) == Some((v, i + j)) && data[i..post][j..] == data[i + j..post]
  {
    hide ReadVarint;
    ReadPrefix(data[i..post], data[post..], 0);
    assert data[i..post] + data[post..] == data[i..];
    ReadSuffix(data, i, 0);
  }

  lemma {:induction false} IntegerRunIs(data: bytes, i: nat, post: nat, acc: seq<int64>) returns (xs: seq<int64>)
    requires i <= post <= |data| && SplitVarints(data[i..post]).Some?
    ensures IntegerRun(data, i, post, acc) == (acc + xs, Some(post))
    ensures IntegersAre(xs, SplitVarints(data[i..post]).value)
    decreases post - i
  {
    hide ReadVarint, AsInt64;
    if i == post {
      xs := [];
      assert acc + [] == acc;
    } else {
      ReadInside(data, i, post);
      var (v, j) := ReadVarint(data[i..post], 0).value;
      var rest := IntegerRunIs(data, i + j, post, acc + [AsInt64(v)]);
      Low64(v);
      xs := [AsInt64(v)] + rest;
      assert acc + [AsInt64(v)] + rest == acc + xs;
    }
  }

  lemma Low64(v: nat)
    ensures Unsigned64(AsInt64(v)) == v % 0x1_0000_0000_0000_0000 == AsUint64(v)
  {
  }

  lemma {:induction false} BoolRunIs(data: bytes, i: nat, post: nat, acc: seq<bool>) returns (xs: seq<bool>)
    requires i <= post <= |data| && SplitVarints(data[i..post]).Some?
    ensures BoolRun(data, i, post, acc) == (acc + xs, Some(post))
    ensures BoolsAre(xs, SplitVarints(data[i..post]).value)
    decreases post - i
  {
    hide ReadVarint, AsUint64;
    if i == post {
      xs := [];
      assert acc + [] == acc;
    } else {
      ReadInside(data, i, post);
      var (v, j) := ReadVarint(data[i..post], 0).value;
      var rest := BoolRunIs(data, i + j, post, acc + [AsUint64(v) != 0]);
      Low64(v);
      xs := [AsUint64(v) != 0] + rest;
      assert acc + [AsUint64(v) != 0] + rest == acc + xs;
    }
  }

  lemma {:induction false} DoubleRunIs(data: bytes, i: nat, post: nat, acc: seq<uint64>) returns (xs: seq<uint64>)
    requires i <= post <= |data| && (post - i) % 8 == 0
    ensures DoubleRun(data, i, post, acc) == (acc + xs, Some(post))
    ensures DoublesIn(data[i..post], xs)
    decreases post - i
  {
    hide Fixed64At, LittleEndian;
    if i == post {
      xs := [];
      assert acc + [] == acc;
    } else {
      var x, s := Fixed64At(data, i), data[i..post];
      var rest := DoubleRunIs(data, i + 8, post, acc + [x]);
      DoubleAt(data, i);
      xs := [x] + rest;
      assert acc + [x] + rest == acc + xs;
      forall k | 0 <= k < |xs| ensures LittleEndian(s[8 * k..8 * k + 8]) == xs[k] {
        SliceInside(data, i, post, 8 * k);
        if k > 0 {
          SliceInside(data, i + 8, post, 8 * (k - 1));
        }
      }
    }
  }

  lemma SliceInside(data: bytes, i: nat, post: nat, k: nat)
    requires i + k + 8 <= post <= |data|
    ensures data[i..post][k..k + 8] == data[i + k..i + k + 8]
  {
    var a, b := data[i..post][k..k + 8], data[i + k..i + k + 8];
    assert |a| == |b|;
    forall x | 0 <= x < 8 ensures a[x] == b[x] {
    }
  }

  lemma DoubleAt(data: bytes, i: nat)
    requires i + 8 <= |data|
    ensures Fixed64At(data, i) == LittleEndian(data[i..i + 8])
  {
    LittleEndianOfEight(data[i..i + 8]);
    assert data[i..i + 8][0..8] == data[i..i + 8];
  }

  lemma FieldTurnAt(sk: Skip, data: bytes, i: nat, m: Field, v: nat, j: nat)
    requires i < |data| && ReadVarint(data, i) == Some((v, j)) && FieldKnows(FieldNumber(v))
    ensures FieldLoop(sk, data, i, m) == match FieldCase(data, j, m, FieldNumber(v), WireType(v))
                                         case Next(k, m') => FieldLoop(sk, data, k, m')
                                         case Stop(s, m') => Decoded(s, m')
  {
    hide ReadVarint, FieldNumber, WireType, AsInt64, LengthAt, IntegerRun, BoolRun, DoubleRun, Fixed64At;
  }

  /** One item of a known number: if it is of a kind the number takes it sets that entry
      and no other, packed runs value by value; of another kind, it ends the call. */
  lemma FieldItemRead(sk: Skip, data: bytes, i: nat, m: Field) returns (m': Field, end: nat)
    requires |data| <= MAX_INT && i < |data| && NextItem(data[i..]).Some? && FieldKnows(NextItem(data[i..]).value.0.num)
    requires WellPacked(NextItem(data[i..]).value.0.num, NextItem(data[i..]).value.0.content)
    ensures end <= |data| && data[end..] == NextItem(data[i..]).value.1
    ensures var item := NextItem(data[i..]).value.0;
            if FieldTakes(item.num, item.content)
            then FieldSets(m, m', item.num, item.content) && FieldLoop(sk, data, i, m) == FieldLoop(sk, data, end, m')
            else FieldLoop(sk, data, i, m) == Decoded(WrongWireType, m)
  {
    hide ReadVarint, NextItem, FieldNumber, WireType, FieldLoop, LengthAt, SplitVarints, Fixed64At, IntegerRun, BoolRun, DoubleRun;
    var v, j;
    v, j, end := ItemAt(data, i);
    var item := NextItem(data[i..]).value.0;
    FieldTurnAt(sk, data, i, m, v, j);
    m' := m;
    if FieldTakes(item.num, item.content) {
      if item.num >= 6 {
        m' := PackedItemSet(data, m, v, j, item, end);
      } else {
        m' := PlainItemSet(data, m, v, j, item, end);
      }
    }
  }

  lemma PlainItemSet(data: bytes, m: Field, v: nat, j: nat, item: Item, end: nat) returns (m': Field)
    requires 1 <= item.num <= 5 && FieldTakes(item.num, item.content) && ContentAt(data, v, j, item.content, end)
    ensures FieldSets(m, m', item.num, item.content)
    ensures FieldCase(data, j, m, item.num, v % 8) == Next(end, m')
  {
    hide ReadVarint, LengthAt, AsInt64, AsInt32, AsUint32, Number64, IntegerRun, BoolRun, DoubleRun, Fixed64At;
    match item.content
    case Num(x) => m' := m.(valueType := Some(AsInt32(x))); Low32(x);
    case Run(s) =>
      m' := FieldWithBytes(m, item.num, s);
      assert Runs(m.valueString + [s]) == Runs(m.valueString) + [Run(s)];
      assert Runs(m.valueBytes + [s]) == Runs(m.valueBytes) + [Run(s)];
    case _ => assert false;
  }

  lemma PackedItemSet(data: bytes, m: Field, v: nat, j: nat, item: Item, end: nat) returns (m': Field)
    requires 6 <= item.num <= 8 && FieldTakes(item.num, item.content) && ContentAt(data, v, j, item.content, end)
    requires WellPacked(item.num, item.content)
    ensures FieldSets(m, m', item.num, item.content)
    ensures FieldCase(data, j, m, item.num, v % 8) == Next(end, m')
  {
    hide FieldCase;
    PackedCase(data, j, m, item.num, v % 8);
    match item.num
    case 6 => m' := IntegerItemSet(data, m, v, j, item.content, end);
    case 7 => m' := DoubleItemSet(data, m, v, j, item.content, end);
    case 8 => m' := BoolItemSet(data, m, v, j, item.content, end);
  }

  lemma PackedCase(data: bytes, j: nat, m: Field, num: int, wt: nat)
    ensures num == 6 ==> FieldCase(data, j, m, num, wt) == IntegerCase(data, j, m, wt)
    ensures num == 7 ==> FieldCase(data, j, m, num, wt) == DoubleCase(data, j, m, wt)
    ensures num == 8 ==> FieldCase(data, j, m, num, wt) == BoolCase(data, j, m, wt)
  {
  }

  lemma IntegerItemSet(data: bytes, m: Field, v: nat, j: nat, c: Content, end: nat) returns (m': Field)
    requires FieldTakes(6, c) && WellPacked(6, c) && ContentAt(data, v, j, c, end)
    ensures FieldSets(m, m', 6, c) && IntegerCase(data, j, m, v % 8) == Next(end, m')
  {
    hide ReadVarint, LengthAt, AsInt64, IntegerRun, SplitVarints;
    match c
    case Num(x) => m' := m.(valueInteger := m.valueInteger + [AsInt64(x)]); Low64(x);
    case Run(s) =>
      var xs := IntegerRunIs(data, end - |s|, end, m.valueInteger);
      m' := m.(valueInteger := m.valueInteger + xs);
    case _ => assert false;
  }

  lemma DoubleItemSet(data: bytes, m: Field, v: nat, j: nat, c: Content, end: nat) returns (m': Field)
    requires FieldTakes(7, c) && WellPacked(7, c) && ContentAt(data, v, j, c, end)
    ensures FieldSets(m, m', 7, c) && DoubleCase(data, j, m, v % 8) == Next(end, m')
  {
    hide ReadVarint, LengthAt, DoubleRun, Fixed64At, LittleEndian;
    match c
    case Eight(b) =>
      m' := m.(valueDouble := m.valueDouble + [Fixed64At(data, j)]);
      DoubleAt(data, j);
      assert b[0..8] == b;
    case Run(s) =>
      var xs := DoubleRunIs(data, end - |s|, end, m.valueDouble);
      m' := m.(valueDouble := m.valueDouble + xs);
    case _ => assert false;
  }

  lemma BoolItemSet(data: bytes, m: Field, v: nat, j: nat, c: Content, end: nat) returns (m': Field)
    requires FieldTakes(8, c) && WellPacked(8, c) && ContentAt(data, v, j, c, end)
    ensures FieldSets(m, m', 8, c) && BoolCase(data, j, m, v % 8) == Next(end, m')
  {
    hide ReadVarint, LengthAt, AsUint64, BoolRun, SplitVarints;
    match c
    case Num(x) => m' := m.(valueBool := m.valueBool + [AsUint64(x) != 0]); Low64(x);
    case Run(s) =>
      var xs := BoolRunIs(data, end - |s|, end, m.valueBool);
      m' := m.(valueBool := m.valueBool + xs);
    case _ => assert false;
  }
}

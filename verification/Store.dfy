/** The memcached store: one channel list per device and one record per channel,
    in a single key space, against a plain map from devices to channels. Backing
    calls succeed; JSON is the identity on the values it carries; a record may
    expire at any time. */
module Store {
  import opened Prelude
  import opened Ids
  import opened Keys
  import opened ChannelLists

  datatype ChannelState = Deleted | Live | Registered

  datatype ChannelRecord = ChannelRecord(state: ChannelState, version: uint64, lastTouched: int64)

  datatype Value = List(ids: seq<bytes>) | Record(rec: ChannelRecord)

  type Cache = map<bytes, Value>

  datatype StoreError =
    | ErrNoID | ErrNoChannel | ErrInvalidID | ErrInvalidChannel | ErrNonexistentChannel
    | ErrUnmarshal | Panicked

  datatype Notice = Notice(chid: bytes, version: uint64)

  // ---- The abstract store ------------------------------------------------------

  /** What a device's channel is, as a client sees it: registered with nothing to
      report, registered and waiting for a first update, or holding one. */
  datatype Slot = Empty | Waiting | Pending(version: uint64, touched: int64)

  type Devices = map<bytes, map<bytes, Slot>>

  ghost function Channels(a: Devices, u: bytes): map<bytes, Slot> {
    if u in a then a[u] else map[]
  }

  ghost function Fresh(version: int64, now: int64): Slot {
    if version == 0 then Waiting else Pending(AsUint64(version), now)
  }

  ghost function AbsRegister(a: Devices, u: bytes, c: bytes, version: int64, now: int64): Devices {
    a[u := Channels(a, u)[c := Fresh(version, now)]]
  }

  ghost function AbsUpdate(a: Devices, u: bytes, c: bytes, version: int64, now: int64): Devices {
    if c in Channels(a, u) && a[u][c] != Empty then a[u := a[u][c := Pending(AsUint64(version), now)]]
    else AbsRegister(a, u, c, version, now)
  }

  ghost function AbsUnregister(a: Devices, u: bytes, c: bytes): Devices {
    if c in Channels(a, u) then a[u := a[u] - {c}] else a
  }

  ghost function AbsDrop(a: Devices, u: bytes, c: bytes): Devices {
    if c in Channels(a, u) then a[u := a[u][c := Empty]] else a
  }

  // ---- Invariant and abstraction -------------------------------------------------

  ghost predicate Listed(cache: Cache, u: bytes, c: bytes) {
    u in cache && cache[u].List? && c in cache[u].ids
  }

  ghost predicate GoodList(ids: seq<bytes>) {
    Ascending(ids) && forall c :: c in ids ==> ValidId(c)
  }

  // An entry under an id is a strictly ascending list of valid ids; any other
  // entry is the record of a valid pair, deleted exactly when it is not listed.
  ghost predicate GoodEntry(cache: Cache, k: bytes)
    requires k in cache
  {
    if ValidId(k) then cache[k].List? && GoodList(cache[k].ids)
    else
      var pair := SplitIds(k);
      && pair.Pair? && ValidId(pair.uaid) && ValidId(pair.chid) && cache[k].Record?
      && k == JoinIds(pair.uaid, pair.chid)
      && (cache[k].rec.state != Deleted <==> Listed(cache, pair.uaid, pair.chid))
  }

  ghost predicate Inv(cache: Cache) {
    forall k :: k in cache ==> GoodEntry(cache, k)
  }

  ghost function SlotFor(rec: ChannelRecord): Slot {
    match rec.state
    case Deleted => Empty
    case Registered => Waiting
    case Live => Pending(rec.version, rec.lastTouched)
  }

  ghost function SlotOf(cache: Cache, u: bytes, c: bytes): Slot {
    var k := JoinIds(u, c);
    if k in cache && cache[k].Record? then SlotFor(cache[k].rec) else Empty
  }

  ghost function Device(cache: Cache, u: bytes): map<bytes, Slot>
    requires u in cache && cache[u].List?
  {
    map c | c in cache[u].ids :: SlotOf(cache, u, c)
  }

  ghost function Abs(cache: Cache): Devices {
    map u | u in cache && cache[u].List? :: Device(cache, u)
  }

  // What is known of a pair of valid ids and its key.
  lemma PairKey(u: bytes, c: bytes)
    requires ValidId(u) && ValidId(c)
    ensures SplitIds(JoinIds(u, c)) == Pair(u, c) && !ValidId(JoinIds(u, c))
  {
    ValidHasNoDot(u);
    ValidHasNoDot(c);
    SplitOfJoin(u, c);
    var k := JoinIds(u, c);
    assert k[|u|] == DOT;
    if ValidId(k) {
      ValidHasNoDot(k);
    }
  }

  // The effect of writing a device's list and one of its records.
  ghost function Write(cache: Cache, u: bytes, ids: seq<bytes>, c: bytes, rec: ChannelRecord): Cache {
    cache[u := List(ids)][JoinIds(u, c) := Record(rec)]
  }

  ghost predicate WriteOk(cache: Cache, u: bytes, ids: seq<bytes>, c: bytes, rec: ChannelRecord) {
    && ValidId(u) && ValidId(c) && GoodList(ids)
    && (forall d :: d != c ==> (d in ids <==> Listed(cache, u, d)))
    && (rec.state != Deleted <==> c in ids)
  }

  lemma WriteKeepsInv(cache: Cache, u: bytes, ids: seq<bytes>, c: bytes, rec: ChannelRecord)
    requires Inv(cache) && WriteOk(cache, u, ids, c, rec)
    ensures Inv(Write(cache, u, ids, c, rec))
  {
    hide ValidId, Ascending;
    PairKey(u, c);
    var next := Write(cache, u, ids, c, rec);
    forall k | k in next ensures GoodEntry(next, k) {
      if k != u && k != JoinIds(u, c) {
        assert GoodEntry(cache, k);
      }
    }
  }

  lemma WriteRefines(cache: Cache, u: bytes, ids: seq<bytes>, c: bytes, rec: ChannelRecord)
    requires Inv(cache) && WriteOk(cache, u, ids, c, rec)
    ensures var was := Channels(Abs(cache), u);
            Abs(Write(cache, u, ids, c, rec)) ==
            Abs(cache)[u := if c in ids then was[c := SlotFor(rec)] else was - {c}]
  {
    hide ValidId, Ascending;
    PairKey(u, c);
    var next := Write(cache, u, ids, c, rec);
    WasList(cache, u);
    WasRecord(cache, u, c);
    OtherDevices(cache, next, u, c);
    SameSlots(cache, next, u, c);
    var was := Channels(Abs(cache), u);
    WrittenDevice(cache, next, u, c);
    assert Abs(next)[u] == if c in ids then was[c := SlotFor(rec)] else was - {c};
    AbsByDevice(Abs(next), Abs(cache), u);
  }

  // The written device: its other slots are as before.
  lemma WrittenDevice(cache: Cache, next: Cache, u: bytes, c: bytes)
    requires Inv(cache) && ValidId(u) && u in next && next[u].List?
    requires forall d :: d != c ==> SlotOf(next, u, d) == SlotOf(cache, u, d)
    requires forall d :: d != c ==> (d in next[u].ids <==> Listed(cache, u, d))
    ensures u in Abs(next)
    ensures var was := Channels(Abs(cache), u);
            Abs(next)[u] == if c in next[u].ids then was[c := SlotOf(next, u, c)] else was - {c}
  {
    hide ValidId, Ascending, SlotOf;
    WasList(cache, u);
    assert Abs(next)[u] == Device(next, u);
  }

  lemma OtherDevices(cache: Cache, next: Cache, u: bytes, c: bytes)
    requires Inv(cache) && ValidId(u)
    requires forall k :: k != u && k != JoinIds(u, c) ==> (k in next <==> k in cache) && (k in next ==> next[k] == cache[k])
    requires JoinIds(u, c) in cache ==> cache[JoinIds(u, c)].Record?
    requires JoinIds(u, c) in next ==> next[JoinIds(u, c)].Record?
    ensures forall v :: v != u ==> (v in Abs(next) <==> v in Abs(cache))
    ensures forall v :: v != u && v in Abs(next) ==> Abs(next)[v] == Abs(cache)[v]
  {
    hide ValidId, Ascending;
    forall v | v != u && v in Abs(next) ensures Abs(next)[v] == Abs(cache)[v] {
      assert GoodEntry(cache, v);
      OtherSlots(cache, next, u, c, v);
    }
  }

  lemma AbsByDevice(a: Devices, b: Devices, u: bytes)
    requires u in a
    requires forall v :: v != u ==> (v in a <==> v in b)
    requires forall v :: v != u && v in a ==> a[v] == b[v]
    ensures a == b[u := a[u]]
  {
  }

  lemma WasList(cache: Cache, u: bytes)
    requires Inv(cache) && ValidId(u)
    ensures u in cache ==> cache[u].List?
    ensures u in Abs(cache) <==> u in cache
    ensures u in cache ==> Abs(cache)[u] == Device(cache, u)
    ensures forall d :: Listed(cache, u, d) <==> d in Channels(Abs(cache), u)
  {
    hide ValidId, Ascending;
    if u in cache {
      assert GoodEntry(cache, u);
    }
  }

  // Only valid ids are ever listed.
  lemma ListedAreValid(cache: Cache, u: bytes, c: bytes)
    requires Inv(cache) && ValidId(u) && c in Channels(Abs(cache), u)
    ensures ValidId(c)
  {
    assert GoodEntry(cache, u);
  }

  lemma WasRecord(cache: Cache, u: bytes, c: bytes)
    requires Inv(cache) && ValidId(u) && ValidId(c)
    ensures JoinIds(u, c) in cache ==> cache[JoinIds(u, c)].Record?
  {
    hide ValidId, Ascending;
    PairKey(u, c);
    if JoinIds(u, c) in cache {
      assert GoodEntry(cache, JoinIds(u, c));
    }
  }

  // A write to one record leaves the device's other slots alone.
  lemma SameSlots(cache: Cache, next: Cache, u: bytes, c: bytes)
    requires ValidId(u)
    requires forall k :: k != u && k != JoinIds(u, c) ==> (k in next <==> k in cache) && (k in next ==> next[k] == cache[k])
    ensures forall d :: d != c ==> SlotOf(next, u, d) == SlotOf(cache, u, d)
  {
    hide ValidId;
    ValidHasNoDot(u);
    forall d | d != c ensures SlotOf(next, u, d) == SlotOf(cache, u, d) {
      KeysAreDisjoint(u, d, u, c);
    }
  }

  // A write to u's entries leaves the slots of every other device alone.
  lemma OtherSlots(cache: Cache, next: Cache, u: bytes, c: bytes, v: bytes)
    requires ValidId(u) && ValidId(v) && u != v
    requires forall k :: k != u && k != JoinIds(u, c) ==> (k in next <==> k in cache) && (k in next ==> next[k] == cache[k])
    ensures forall d :: SlotOf(next, v, d) == SlotOf(cache, v, d)
  {
    hide ValidId;
    ValidHasNoDot(u);
    ValidHasNoDot(v);
    forall d ensures SlotOf(next, v, d) == SlotOf(cache, v, d) {
      KeysAreDisjoint(v, d, u, c);
    }
  }

  // Forgetting a record, by Drop or by expiry.
  lemma ForgetKeepsInv(cache: Cache, u: bytes, c: bytes)
    requires Inv(cache) && ValidId(u) && ValidId(c)
    ensures Inv(cache - {JoinIds(u, c)})
  {
    hide ValidId, Ascending;
    PairKey(u, c);
    var next := cache - {JoinIds(u, c)};
    forall k | k in next ensures GoodEntry(next, k) {
      assert GoodEntry(cache, k);
    }
  }

  lemma ForgetRefines(cache: Cache, u: bytes, c: bytes)
    requires Inv(cache) && ValidId(u) && ValidId(c)
    ensures Abs(cache - {JoinIds(u, c)}) == AbsDrop(Abs(cache), u, c)
  {
    hide ValidId, Ascending;
    PairKey(u, c);
    WasList(cache, u);
    WasRecord(cache, u, c);
    var next := cache - {JoinIds(u, c)};
    OtherDevices(cache, next, u, c);
    SameSlots(cache, next, u, c);
    if u in cache {
      WrittenDevice(cache, next, u, c);
      AbsByDevice(Abs(next), Abs(cache), u);
      assert c !in Abs(cache)[u] ==> Abs(cache)[u] - {c} == Abs(cache)[u];
    } else {
      assert Abs(next) == Abs(cache);
    }
  }

  // The whole device: its records and its list.
  ghost function DeviceKeys(u: bytes, ids: seq<bytes>): set<bytes> {
    {u} + set c | c in ids :: JoinIds(u, c)
  }

  lemma DropAllRefines(cache: Cache, u: bytes, ids: seq<bytes>)
    requires Inv(cache) && ValidId(u)
    requires if u in cache then cache[u] == List(ids) else ids == []
    ensures Inv(cache - DeviceKeys(u, ids))
    ensures Abs(cache - DeviceKeys(u, ids)) == Abs(cache) - {u}
  {
    hide ValidId, Ascending;
    var gone := DeviceKeys(u, ids);
    var next := cache - gone;
    ValidHasNoDot(u);
    if u in cache {
      assert GoodEntry(cache, u);
    }
    forall v | ValidId(v) && v != u ensures v !in gone {
      ValidHasNoDot(v);
      forall c | c in ids ensures JoinIds(u, c) != v {
        KeysAreDisjoint(u, c, v, []);
      }
    }
    forall v, d | ValidId(v) && v != u ensures JoinIds(v, d) !in gone {
      ValidHasNoDot(v);
      KeysAreDisjoint(v, d, u, d);
      forall c | c in ids ensures JoinIds(u, c) != JoinIds(v, d) {
        KeysAreDisjoint(u, c, v, d);
      }
    }
    forall k | k in next ensures GoodEntry(next, k) {
      assert GoodEntry(cache, k);
    }
    forall v | v in next && next[v].List? ensures v in cache && Device(next, v) == Device(cache, v) {
      assert GoodEntry(cache, v);
    }
    assert Abs(next).Keys == Abs(cache).Keys - {u} by {
      forall v | v in cache && cache[v].List? && v != u ensures v in next {
        assert GoodEntry(cache, v);
      }
    }
  }

  /** A device that is not in the abstract map has no live or registered record left. */
  lemma NoTraceOfDropped(cache: Cache, u: bytes, c: bytes)
    requires Inv(cache) && ValidId(u) && ValidId(c) && u !in Abs(cache)
    ensures JoinIds(u, c) in cache ==> cache[JoinIds(u, c)].rec.state == Deleted
  {
    PairKey(u, c);
    if JoinIds(u, c) in cache {
      assert GoodEntry(cache, JoinIds(u, c));
    }
  }

  // ---- The adapter ---------------------------------------------------------------

  // The checks that every entry point makes, in order.
  function CheckIds(u: bytes, c: bytes): Option<StoreError> {
    if u == [] then Some(ErrNoID)
    else if c == [] then Some(StoreError.ErrNoChannel)
    else if !ValidId(u) then Some(ErrInvalidID)
    else if !ValidId(c) then Some(ErrInvalidChannel)
    else None
  }

  // Which error goes with which id.
  lemma CheckIdsIff(u: bytes, c: bytes)
    ensures CheckIds(u, c) == Some(ErrNoID) <==> u == []
    ensures CheckIds(u, c) == Some(StoreError.ErrNoChannel) <==> u != [] && c == []
    ensures CheckIds(u, c) == Some(ErrInvalidID) <==> u != [] && c != [] && !ValidId(u)
    ensures CheckIds(u, c) == Some(ErrInvalidChannel) <==> ValidId(u) && c != [] && !ValidId(c)
    ensures CheckIds(u, c).None? <==> ValidId(u) && ValidId(c)
  {
  }

  datatype Fetched = Ids(ids: seq<bytes>) | Missing | Corrupt

  class GomemcStore {
    var cache: Cache

    constructor ()
      ensures cache == map[] && Inv(cache)
    {
      cache := map[];
    }

    method FetchAppIDArray(u: bytes) returns (r: Fetched)
      ensures u == [] ==> r == Ids([])
      ensures u != [] ==> r == if u !in cache then Missing
                               else if cache[u].List? then Ids(cache[u].ids) else Corrupt
    {
      if |u| == 0 {
        return Ids([]);
      }
      if u !in cache {
        return Missing;
      }
      if !cache[u].List? {
        return Corrupt;
      }
      return Ids(cache[u].ids);
    }

    // Sort, pare in place, store without expiry.
    method StoreAppIDArray(u: bytes, chids: seq<bytes>) returns (err: Option<StoreError>)
      modifies this
      ensures u == [] ==> err == Some(ErrNoID)
      ensures u != [] && Distinct(chids) ==> err.None? && cache == old(cache)[u := List(Sorted(chids))]
      ensures u != [] && !Distinct(chids) ==> err == Some(Panicked)
      ensures err.Some? ==> cache == old(cache)
    {
      if |u| == 0 {
        return Some(ErrNoID);
      }
      SortedDistinct(chids);
      var sorted := Sorted(chids);
      var list := new bytes[|sorted|](i requires 0 <= i < |sorted| => sorted[i]);
      assert list[..] == sorted;
      var panicked, n := PareDuplicates(list);
      if panicked {
        return Some(Panicked);
      }
      assert list[..n] == list[..];
      cache := cache[u := List(list[..n])];
      return None;
    }

    // A miss is read as a zero record, whose state is Deleted.
    method FetchRec(key: bytes) returns (r: Option<ChannelRecord>)
      ensures r == if key !in cache then Some(ChannelRecord(Deleted, 0, 0))
                   else if cache[key].Record? then Some(cache[key].rec) else None
    {
      if key !in cache {
        return Some(ChannelRecord(Deleted, 0, 0));
      }
      if !cache[key].Record? {
        return None;
      }
      return Some(cache[key].rec);
    }

    method StoreRec(key: bytes, rec: ChannelRecord, now: int64)
      modifies this
      ensures cache == old(cache)[key := Record(rec.(lastTouched := now))]
    {
      cache := cache[key := Record(rec.(lastTouched := now))];
    }

    method StoreRegister(u: bytes, c: bytes, version: int64, now: int64) returns (err: Option<StoreError>)
      requires Inv(cache) && ValidId(u) && ValidId(c)
      modifies this
      ensures err.None? && Inv(cache)
      ensures Abs(cache) == AbsRegister(old(Abs(cache)), u, c, version, now)
    {
      ghost var before := cache;
      ValidHasNoDot(u);
      if u in cache {
        assert GoodEntry(cache, u);
      }
      var fetched := FetchAppIDArray(u);
      var chids := if fetched.Ids? then fetched.ids else [];
      var pos := IndexOf(chids, c);
      ghost var ids := chids;
      if pos < 0 {
        AddToList(chids, c);
        ids := Sorted(chids + [c]);
        err := StoreAppIDArray(u, chids + [c]);
        if err.Some? {
          return;
        }
      }
      var rec := if version != 0 then ChannelRecord(Live, AsUint64(version), now) else ChannelRecord(Registered, 0, now);
      StoreRec(JoinIds(u, c), rec, now);
      assert cache == Write(before, u, ids, c, rec) by {
        if pos >= 0 {
          assert before[u := List(ids)] == before;
        }
      }
      WriteKeepsInv(before, u, ids, c, rec);
      WriteRefines(before, u, ids, c, rec);
      return None;
    }

    method Register(u: bytes, c: bytes, version: int64, now: int64) returns (err: Option<StoreError>)
      requires Inv(cache)
      modifies this
      ensures err == CheckIds(u, c) && Inv(cache)
      ensures Abs(cache) == if err.Some? then old(Abs(cache)) else AbsRegister(old(Abs(cache)), u, c, version, now)
    {
      err := CheckIds(u, c);
      if err.None? {
        err := StoreRegister(u, c, version, now);
      }
    }

    method Update(u: bytes, c: bytes, version: int64, now: int64) returns (err: Option<StoreError>)
      requires Inv(cache)
      modifies this
      ensures err == CheckIds(u, c) && Inv(cache)
      ensures Abs(cache) == if err.Some? then old(Abs(cache)) else AbsUpdate(old(Abs(cache)), u, c, version, now)
    {
      err := CheckIds(u, c);
      if err.Some? {
        return;
      }
      var key := JoinIds(u, c);
      ghost var before := cache;
      PairKey(u, c);
      if key in cache {
        assert GoodEntry(cache, key);
      }
      var rec := FetchRec(key);
      SlotMeansRecord(cache, u, c);
      if rec.Some? && rec.value.state != Deleted {
        var live := ChannelRecord(Live, AsUint64(version), now);
        StoreRec(key, live, now);
        ghost var ids := before[u].ids;
        assert GoodEntry(before, u);
        assert before[u := List(ids)] == before;
        WriteKeepsInv(before, u, ids, c, live);
        WriteRefines(before, u, ids, c, live);
        return None;
      }
      err := StoreRegister(u, c, version, now);
    }

    method Unregister(u: bytes, c: bytes, now: int64) returns (err: Option<StoreError>)
      requires Inv(cache)
      modifies this
      ensures err == if CheckIds(u, c).Some? then CheckIds(u, c)
                     else if c in Channels(old(Abs(cache)), u) then None else Some(ErrNonexistentChannel)
      ensures Inv(cache)
      ensures Abs(cache) == if err.Some? then old(Abs(cache)) else AbsUnregister(old(Abs(cache)), u, c)
    {
      err := CheckIds(u, c);
      if err.Some? {
        return;
      }
      var key := JoinIds(u, c);
      ghost var before := cache;
      PairKey(u, c);
      ValidHasNoDot(u);
      if u in cache {
        assert GoodEntry(cache, u);
      }
      var fetched := FetchAppIDArray(u);
      var chids := if fetched.Ids? then fetched.ids else [];
      var pos := IndexOf(chids, c);
      if pos < 0 {
        return Some(ErrNonexistentChannel);
      }
      RemoveFromAscending(chids, pos);
      var rest := Remove(chids, pos);
      AscendingIsDistinct(rest);
      SortedIsAscending(rest);
      err := StoreAppIDArray(u, rest);
      if key in before {
        assert GoodEntry(before, key);
      }
      var rec := FetchRec(key);
      var tombstone := rec.value.(state := Deleted);
      StoreRec(key, tombstone, now);
      ghost var ids := Sorted(rest);
      ghost var stored := tombstone.(lastTouched := now);
      WriteKeepsInv(before, u, ids, c, stored);
      WriteRefines(before, u, ids, c, stored);
    }

    method Drop(u: bytes, c: bytes) returns (err: Option<StoreError>)
      requires Inv(cache)
      modifies this
      ensures err == CheckIds(u, c) && Inv(cache)
      ensures Abs(cache) == if err.Some? then old(Abs(cache)) else AbsDrop(old(Abs(cache)), u, c)
    {
      err := CheckIds(u, c);
      if err.None? {
        ForgetKeepsInv(cache, u, c);
        ForgetRefines(cache, u, c);
        cache := cache - {JoinIds(u, c)};
      }
    }

    // Not a call: memcached dropping a record whose time to live has passed.
    method Expire(u: bytes, c: bytes)
      requires Inv(cache) && ValidId(u) && ValidId(c)
      modifies this
      ensures Inv(cache) && Abs(cache) == AbsDrop(old(Abs(cache)), u, c)
    {
      ForgetKeepsInv(cache, u, c);
      ForgetRefines(cache, u, c);
      cache := cache - {JoinIds(u, c)};
    }

    method DropAll(u: bytes) returns (err: Option<StoreError>)
      requires Inv(cache)
      modifies this
      ensures err == if ValidId(u) then None else Some(ErrInvalidID)
      ensures Inv(cache)
      ensures Abs(cache) == if err.Some? then old(Abs(cache)) else old(Abs(cache)) - {u}
    {
      if !ValidId(u) {
        return Some(ErrInvalidID);
      }
      ValidHasNoDot(u);
      if u in cache {
        assert GoodEntry(cache, u);
      }
      ghost var before := cache;
      var fetched := FetchAppIDArray(u);
      var chids := if fetched.Ids? then fetched.ids else [];
      for i := 0 to |chids|
        invariant cache == before - set c | c in chids[..i] :: JoinIds(u, c)
      {
        assert chids[..i + 1] == chids[..i] + [chids[i]];
        cache := cache - {JoinIds(u, chids[i])};
      }
      assert chids[..|chids|] == chids;
      cache := cache - {u};
      assert cache == before - DeviceKeys(u, chids);
      DropAllRefines(before, u, chids);
      return None;
    }

    /** Everything pending for a device since a time, and the expired channels,
        of which there are never any. The id is not validated: an unknown one has
        nothing pending, and a record's key is not a list. */
    method FetchAll(u: bytes, since: int64, now: int64)
      returns (err: Option<StoreError>, updates: seq<Notice>, expired: seq<bytes>)
      requires Inv(cache)
      ensures err == if u == [] then Some(ErrNoID)
                     else if u in cache && !ValidId(u) then Some(ErrUnmarshal) else None
      ensures expired == []
      ensures forall i, j :: 0 <= i < j < |updates| ==> Less(updates[i].chid, updates[j].chid)
      ensures err.None? ==> forall c, v :: Notice(c, v) in updates <==> Reports(Abs(cache), u, since, now, c, v)
      ensures err.Some? ==> updates == []
    {
      updates, expired := [], [];
      if |u| == 0 {
        return Some(ErrNoID), [], [];
      }
      if u in cache {
        assert GoodEntry(cache, u);
      }
      var fetched := FetchAppIDArray(u);
      if fetched.Corrupt? {
        return Some(ErrUnmarshal), [], [];
      }
      var chids := if fetched.Ids? then fetched.ids else [];
      for i := 0 to |chids|
        invariant expired == []
        invariant Collected(Abs(cache), u, since, now, chids[..i], updates)
      {
        var chid := chids[i];
        ListedSlot(cache, u, chid);
        CollectNext(Abs(cache), u, since, now, chids, i, updates);
        var key := JoinIds(u, chid);
        if key in cache && cache[key].Record? && cache[key].rec.lastTouched >= since {
          var rec := cache[key].rec;
          match rec.state {
            case Live =>
              var version := if rec.version == 0 then AsUint64(now) else rec.version;
              updates := updates + [Notice(chid, version)];
            case Deleted =>
              expired := expired + [chid];
            case Registered =>
          }
        }
      }
      assert chids[..|chids|] == chids;
      CollectedAll(cache, u, since, now, chids, updates);
      return None, updates, expired;
    }
  }

  /** A channel is reported with its version, or with the time when that is zero. */
  ghost predicate Reports(a: Devices, u: bytes, since: int64, now: int64, c: bytes, v: uint64) {
    && c in Channels(a, u) && a[u][c].Pending? && a[u][c].touched >= since
    && v == if a[u][c].version == 0 then AsUint64(now) else a[u][c].version
  }

  // The notices gathered from the channels seen so far.
  ghost predicate Collected(a: Devices, u: bytes, since: int64, now: int64, seen: seq<bytes>, updates: seq<Notice>) {
    && (forall k :: 0 <= k < |updates| ==> updates[k].chid in seen && Reports(a, u, since, now, updates[k].chid, updates[k].version))
    && (forall j, k :: 0 <= j < k < |updates| ==> Less(updates[j].chid, updates[k].chid))
    && (forall c, v :: c in seen && Reports(a, u, since, now, c, v) ==> Notice(c, v) in updates)
  }

  lemma CollectNext(a: Devices, u: bytes, since: int64, now: int64, chids: seq<bytes>, i: nat, updates: seq<Notice>)
    requires i < |chids| && Ascending(chids) && Collected(a, u, since, now, chids[..i], updates)
    ensures forall v :: Reports(a, u, since, now, chids[i], v) ==>
                          Collected(a, u, since, now, chids[..i + 1], updates + [Notice(chids[i], v)])
    ensures (forall v :: !Reports(a, u, since, now, chids[i], v)) ==>
              Collected(a, u, since, now, chids[..i + 1], updates)
  {
    hide Reports;
    assert chids[..i + 1] == chids[..i] + [chids[i]];
    forall v | Reports(a, u, since, now, chids[i], v)
      ensures Collected(a, u, since, now, chids[..i + 1], updates + [Notice(chids[i], v)])
    {
      OnlyVersion(a, u, since, now, chids[i], v);
      var next := updates + [Notice(chids[i], v)];
      assert forall k :: 0 <= k < |updates| ==> Less(updates[k].chid, chids[i]);
      assert next[|updates|] == Notice(chids[i], v);
      forall c, w | c in chids[..i + 1] && Reports(a, u, since, now, c, w) ensures Notice(c, w) in next {
        assert c != chids[i] ==> c in chids[..i];
      }
    }
  }

  lemma OnlyVersion(a: Devices, u: bytes, since: int64, now: int64, c: bytes, v: uint64)
    requires Reports(a, u, since, now, c, v)
    ensures forall w :: Reports(a, u, since, now, c, w) ==> w == v
  {
  }

  lemma CollectedAll(cache: Cache, u: bytes, since: int64, now: int64, chids: seq<bytes>, updates: seq<Notice>)
    requires Collected(Abs(cache), u, since, now, chids, updates)
    requires forall c :: Listed(cache, u, c) ==> c in chids
    ensures forall c, v :: Notice(c, v) in updates <==> Reports(Abs(cache), u, since, now, c, v)
  {
    forall c, v ensures Notice(c, v) in updates <==> Reports(Abs(cache), u, since, now, c, v) {
      if Notice(c, v) in updates {
        var k :| 0 <= k < |updates| && updates[k] == Notice(c, v);
      }
    }
  }

  // A listed channel's record is the one its slot was taken from, never a deleted one.
  lemma ListedSlot(cache: Cache, u: bytes, c: bytes)
    requires Inv(cache) && Listed(cache, u, c) && ValidId(u)
    ensures c in Channels(Abs(cache), u) && Abs(cache)[u][c] == SlotOf(cache, u, c)
    ensures JoinIds(u, c) in cache ==> cache[JoinIds(u, c)].Record? && cache[JoinIds(u, c)].rec.state != Deleted
  {
    assert GoodEntry(cache, u);
    PairKey(u, c);
    if JoinIds(u, c) in cache {
      assert GoodEntry(cache, JoinIds(u, c));
    }
  }

  lemma SlotMeansRecord(cache: Cache, u: bytes, c: bytes)
    requires Inv(cache) && ValidId(u) && ValidId(c)
    ensures var live := JoinIds(u, c) in cache && cache[JoinIds(u, c)].Record? && cache[JoinIds(u, c)].rec.state != Deleted;
            live <==> c in Channels(Abs(cache), u) && Abs(cache)[u][c] != Empty
  {
    PairKey(u, c);
    if JoinIds(u, c) in cache {
      assert GoodEntry(cache, JoinIds(u, c));
    }
    if Listed(cache, u, c) {
      ListedSlot(cache, u, c);
    }
  }

  lemma AddToList(chids: seq<bytes>, c: bytes)
    requires GoodList(chids) && ValidId(c) && c !in chids
    ensures Distinct(chids + [c]) && GoodList(Sorted(chids + [c]))
    ensures forall d :: d in Sorted(chids + [c]) <==> d in chids || d == c
  {
    AscendingIsDistinct(chids);
    SortedIsAscending(chids + [c]);
  }
}

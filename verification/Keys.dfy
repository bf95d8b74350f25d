/** Primary keys: a device id and a channel id joined by a dot, as storage.go
    builds them and splits them again. */
module Keys {
  import opened Prelude
  import opened Ids

  const DOT: byte := 0x2e

  function JoinIds(uaid: bytes, chid: bytes): bytes {
    uaid + [DOT] + chid
  }

  datatype SplitResult = Pair(uaid: bytes, chid: bytes) | ErrNoId | ErrNoChannel

  // The index of the first dot, or the length when there is none.
  function FirstDot(s: bytes): (i: nat)
    ensures i <= |s|
    ensures i < |s| ==> s[i] == DOT
    ensures forall k :: 0 <= k < i ==> s[k] != DOT
  {
    if s == [] || s[0] == DOT then 0 else 1 + FirstDot(s[1..])
  }

  /** splitIDs: everything before the first dot, and everything after it. */
  function SplitIds(key: bytes): SplitResult {
    var i := FirstDot(key);
    if i == 0 then ErrNoId
    else if i == |key| || i + 1 == |key| then ErrNoChannel
    else Pair(key[..i], key[i + 1..])
  }

  predicate NoDot(s: bytes) {
    forall k :: 0 <= k < |s| ==> s[k] != DOT
  }

  lemma ValidHasNoDot(id: bytes)
    requires ValidId(id)
    ensures NoDot(id) && |id| > 0
  {
    if |id| == 36 {
      forall k | 0 <= k < 36 ensures id[k] != DOT {
        assert HyphenAt(k) || IsHex(id[k]);
      }
    }
  }

  /** Splitting what was joined gives the pair back exactly when the device id is
      free of dots and neither part is empty. */
  lemma SplitOfJoin(uaid: bytes, chid: bytes)
    ensures SplitIds(JoinIds(uaid, chid)) == Pair(uaid, chid) <==> NoDot(uaid) && uaid != [] && chid != []
  {
    var key := JoinIds(uaid, chid);
    if NoDot(uaid) {
      DotOfJoin(uaid, chid);
      assert key[..|uaid|] == uaid && key[|uaid| + 1..] == chid;
    } else {
      var k :| 0 <= k < |uaid| && uaid[k] == DOT;
      assert key[k] == DOT;
    }
  }

  // What a key is made of, in literal bytes.
  lemma JoinIsDotted(uaid: bytes, chid: bytes)
    ensures var key := JoinIds(uaid, chid);
            |key| == |uaid| + 1 + |chid| && key[..|uaid|] == uaid && key[|uaid|] == 0x2e && key[|uaid| + 1..] == chid
  {
  }

  /** What splitting any key gives: no id if it is empty or begins with a dot, no channel
      if it has no dot or ends with its only one, and otherwise the parts of a join whose
      first part has no dot. */
  lemma SplitIff(key: bytes, uaid: bytes, chid: bytes)
    ensures SplitIds(key) == ErrNoId <==> key == [] || key[0] == 0x2e
    ensures SplitIds(key) == ErrNoChannel <==> key != [] && NoDot(key[..|key| - 1]) && (|key| == 1 ==> key[0] != 0x2e)
    ensures SplitIds(key) == Pair(uaid, chid) <==> key == JoinIds(uaid, chid) && NoDot(uaid) && uaid != [] && chid != []
  {
    var i := FirstDot(key);
    if key != [] && i == |key| {
      assert NoDot(key[..|key| - 1]);
    }
    if 0 < i < |key| && i + 1 < |key| {
      assert key[..|key| - 1][i] == DOT;
      assert key == JoinIds(key[..i], key[i + 1..]);
    }
    if key == JoinIds(uaid, chid) {
      SplitOfJoin(uaid, chid);
    }
  }

  lemma DotOfJoin(uaid: bytes, chid: bytes)
    requires NoDot(uaid)
    ensures FirstDot(JoinIds(uaid, chid)) == |uaid|
  {
    var key := JoinIds(uaid, chid);
    assert key[|uaid|] == DOT;
    assert forall k :: 0 <= k < |uaid| ==> key[k] == uaid[k];
  }

  // Keys of distinct pairs differ, and no key is itself an id: device lists and
  // channel records never share a slot of the store.
  lemma KeysAreDisjoint(u: bytes, c: bytes, u': bytes, c': bytes)
    requires NoDot(u) && NoDot(u')
    ensures JoinIds(u, c) == JoinIds(u', c') <==> u == u' && c == c'
    ensures JoinIds(u, c) != u'
  {
    DotOfJoin(u, c);
    DotOfJoin(u', c');
    assert JoinIds(u, c)[|u|] == DOT;
    assert JoinIds(u, c)[..|u|] == u && JoinIds(u, c)[|u| + 1..] == c;
    assert JoinIds(u', c')[..|u'|] == u' && JoinIds(u', c')[|u'| + 1..] == c';
  }
}

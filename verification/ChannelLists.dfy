/** Lists of channel ids: their order, sorting, searching, and the loop that is
    meant to pare out duplicates before a list is stored (mc_common.go and
    storeAppIDArray). */
module ChannelLists {
  import opened Prelude

  // ---- The order of ids --------------------------------------------------------

  predicate Less(a: bytes, b: bytes) {
    if b == [] then false
    else if a == [] then true
    else a[0] < b[0] || (a[0] == b[0] && Less(a[1..], b[1..]))
  }

  // The first place where two ids differ, by a smaller byte or by the end of a.
  ghost predicate FirstDifference(a: bytes, b: bytes, k: nat) {
    && k <= |a| && k <= |b| && a[..k] == b[..k]
    && ((k == |a| && |a| < |b|) || (k < |a| && k < |b| && a[k] < b[k]))
  }

  /** Less is the byte-wise lexicographic order. */
  lemma {:induction false} LessIsLexicographic(a: bytes, b: bytes)
    ensures Less(a, b) <==> exists k :: FirstDifference(a, b, k)
    decreases |a|
  {
    if b == [] {
    } else if a == [] {
      assert FirstDifference(a, b, 0);
    } else if a[0] != b[0] {
      assert a[0] < b[0] ==> FirstDifference(a, b, 0);
      assert forall k: nat :: 0 < k <= |a| && k <= |b| ==> a[..k][0] != b[..k][0];
    } else {
      LessIsLexicographic(a[1..], b[1..]);
      forall k: nat ensures FirstDifference(a[1..], b[1..], k) <==> FirstDifference(a, b, k + 1) {
        DifferenceShifts(a, b, k);
      }
      forall k: nat | FirstDifference(a, b, k) ensures k > 0 && FirstDifference(a[1..], b[1..], k - 1) {
        DifferenceShifts(a, b, k - 1);
      }
    }
  }

  lemma DifferenceShifts(a: bytes, b: bytes, k: nat)
    requires a != [] && b != [] && a[0] == b[0]
    ensures FirstDifference(a[1..], b[1..], k) <==> FirstDifference(a, b, k + 1)
  {
    if k + 1 <= |a| && k + 1 <= |b| {
      assert a[..k + 1] == [a[0]] + a[1..][..k] && b[..k + 1] == [b[0]] + b[1..][..k];
      assert a[..k + 1][1..] == a[1..][..k] && b[..k + 1][1..] == b[1..][..k];
    }
  }

  lemma {:induction false} LessIsStrict(a: bytes, b: bytes)
    ensures !Less(a, a)
    ensures Less(a, b) ==> !Less(b, a)
    ensures Less(a, b) || Less(b, a) || a == b
    decreases |a|
  {
    if a != [] {
      LessIsStrict(a[1..], a[1..]);
      if b != [] {
        LessIsStrict(a[1..], b[1..]);
        if a[0] == b[0] && a[1..] == b[1..] {
          assert a == [a[0]] + a[1..] && b == [b[0]] + b[1..];
        }
      }
    }
  }

  lemma {:induction false} LessIsTransitive(a: bytes, b: bytes, c: bytes)
    requires Less(a, b) && Less(b, c)
    ensures Less(a, c)
    decreases |a|
  {
    if a != [] && a[0] == b[0] && b[0] == c[0] {
      LessIsTransitive(a[1..], b[1..], c[1..]);
    }
  }

  predicate Distinct(s: seq<bytes>) {
    forall i, j :: 0 <= i < j < |s| ==> s[i] != s[j]
  }

  predicate Ascending(s: seq<bytes>) {
    forall i, j :: 0 <= i < j < |s| ==> Less(s[i], s[j])
  }

  // ---- sort.Sort ---------------------------------------------------------------

  function Insert(x: bytes, s: seq<bytes>): seq<bytes> {
    if s == [] || Less(x, s[0]) then [x] + s else [s[0]] + Insert(x, s[1..])
  }

  function Sorted(s: seq<bytes>): seq<bytes> {
    if s == [] then [] else Insert(s[0], Sorted(s[1..]))
  }

  lemma {:induction false} InsertMembers(x: bytes, s: seq<bytes>, y: bytes)
    ensures y in Insert(x, s) <==> y == x || y in s
    decreases |s|
  {
    if !(s == [] || Less(x, s[0])) {
      InsertMembers(x, s[1..], y);
      assert s == [s[0]] + s[1..];
    }
  }

  lemma {:induction false} InsertAscending(x: bytes, s: seq<bytes>)
    requires Ascending(s) && x !in s
    ensures Ascending(Insert(x, s))
    decreases |s|
  {
    if s == [] {
    } else if Less(x, s[0]) {
      forall j | 0 <= j < |s| ensures Less(x, s[j]) {
        if j > 0 {
          LessIsTransitive(x, s[0], s[j]);
        }
      }
    } else {
      LessIsStrict(x, s[0]);
      InsertAscending(x, s[1..]);
      var t := Insert(x, s[1..]);
      forall j | 0 <= j < |t| ensures Less(s[0], t[j]) {
        assert t[j] in t;
        InsertMembers(x, s[1..], t[j]);
        if t[j] != x {
          var k :| 0 <= k < |s[1..]| && s[1..][k] == t[j];
          assert s[k + 1] == t[j];
        }
      }
    }
  }

  /** Sorting a duplicate-free list puts the same ids in strictly ascending order. */
  lemma {:induction false} SortedIsAscending(s: seq<bytes>)
    requires Distinct(s)
    ensures Ascending(Sorted(s))
    ensures forall y :: y in Sorted(s) <==> y in s
    decreases |s|
  {
    if s != [] {
      SortedIsAscending(s[1..]);
      InsertAscending(s[0], Sorted(s[1..]));
      forall y ensures y in Sorted(s) <==> y in s {
        InsertMembers(s[0], Sorted(s[1..]), y);
        assert s == [s[0]] + s[1..];
      }
    }
  }

  /** Sorting is a permutation, whatever the list. */
  lemma {:induction false} SortedIsPermutation(s: seq<bytes>)
    ensures multiset(Sorted(s)) == multiset(s)
    decreases |s|
  {
    if s != [] {
      SortedIsPermutation(s[1..]);
      InsertCount(s[0], Sorted(s[1..]));
      assert s == [s[0]] + s[1..];
    }
  }

  lemma {:induction false} InsertCount(x: bytes, s: seq<bytes>)
    ensures multiset(Insert(x, s)) == multiset(s) + multiset{x}
    decreases |s|
  {
    if !(s == [] || Less(x, s[0])) {
      InsertCount(x, s[1..]);
      assert s == [s[0]] + s[1..];
    }
  }

  // Sorting neither makes nor removes duplicates.
  lemma SortedDistinct(s: seq<bytes>)
    ensures Distinct(Sorted(s)) <==> Distinct(s)
  {
    SortedIsPermutation(s);
    DistinctByCount(s);
    DistinctByCount(Sorted(s));
  }

  lemma {:induction false} DistinctByCount(s: seq<bytes>)
    ensures Distinct(s) <==> forall x :: multiset(s)[x] <= 1
    decreases |s|
  {
    if s != [] {
      var t := s[1..];
      DistinctByCount(t);
      assert s == [s[0]] + t;
      if Distinct(s) {
        assert Distinct(t) by {
          forall i, j | 0 <= i < j < |t| ensures t[i] != t[j] {
            assert s[i + 1] != s[j + 1];
          }
        }
        assert s[0] !in t;
      } else {
        var i, j :| 0 <= i < j < |s| && s[i] == s[j];
        if i == 0 {
          assert t[j - 1] == s[0];
          assert multiset(s)[s[0]] >= 2;
        } else {
          assert t[i - 1] == t[j - 1];
          assert !Distinct(t);
          var x :| multiset(t)[x] > 1;
          assert multiset(s)[x] >= multiset(t)[x];
        }
      }
    }
  }

  lemma AscendingIsDistinct(s: seq<bytes>)
    requires Ascending(s)
    ensures Distinct(s)
  {
    forall i, j | 0 <= i < j < |s| ensures s[i] != s[j] {
      LessIsStrict(s[i], s[j]);
    }
  }

  // ---- IndexOf and remove --------------------------------------------------------

  method IndexOf(s: seq<bytes>, val: bytes) returns (index: int)
    ensures -1 <= index < |s|
    ensures index >= 0 ==> s[index] == val
    ensures forall k :: 0 <= k < |s| && (index < 0 || k < index) ==> s[k] != val
  {
    for i := 0 to |s|
      invariant forall k :: 0 <= k < i ==> s[k] != val
    {
      if s[i] == val {
        return i;
      }
    }
    return -1;
  }

  function Remove(s: seq<bytes>, pos: int): seq<bytes>
    requires pos <= |s|
  {
    if pos < 0 || pos == |s| then s else s[..pos] + s[pos + 1..]
  }

  lemma RemoveFromAscending(s: seq<bytes>, pos: nat)
    requires pos < |s| && Ascending(s)
    ensures Ascending(Remove(s, pos))
    ensures forall y :: y in Remove(s, pos) <==> y in s && y != s[pos]
  {
    AscendingIsDistinct(s);
    var r := Remove(s, pos);
    forall y ensures y in r <==> y in s && y != s[pos] {
      if y in s && y != s[pos] {
        var k :| 0 <= k < |s| && s[k] == y;
        assert r[if k < pos then k else k - 1] == y;
      }
      if y in r {
        var k :| 0 <= k < |r| && r[k] == y;
        assert s[if k < pos then k else k + 1] == y;
      }
    }
  }

  // ---- The paring loop -----------------------------------------------------------

  /** "Pare out duplicates": for each element of the list as it was, a later copy
      is looked for in the list as it is now, and removed one position too early,
      in place. Once anything was removed, a later turn slices past the end of the
      shortened list and panics. So the loop succeeds exactly on lists that need no
      paring, and then changes nothing. */
  method PareDuplicates(list: array<bytes>) returns (panicked: bool, n: nat)
    modifies list
    ensures panicked <==> !Distinct(old(list[..]))
    ensures !panicked ==> n == list.Length && list[..] == old(list[..])
  {
    n := list.Length;
    for i := 0 to list.Length
      invariant n <= list.Length
      invariant n == list.Length ==> list[..] == old(list[..])
      invariant n == list.Length ==> forall j, k :: 0 <= j < i && j < k < list.Length ==> list[j] != list[k]
      invariant n < list.Length ==> i < list.Length && !Distinct(old(list[..]))
    {
      var chid := list[i];
      if i + 1 > n {
        return true, n;
      }
      var rest := list[i + 1..n];
      var dup := IndexOf(rest, chid);
      if dup > -1 {
        assert list[i + 1 + dup] == chid;
        forall k | i + dup <= k < n - 1 {
          list[k] := list[k + 1];
        }
        n := n - 1;
      } else {
        assert forall k :: i < k < n ==> list[k] == rest[k - i - 1];
      }
    }
    assert list[..] == old(list[..]);
    return false, n;
  }
}

/** Choosing a peer to redirect to (etcd_balancer.go): peers weighted by their free
    connections, in 64-bit arithmetic that wraps. */
module Balancer {
  import opened Prelude
  import opened Arithmetic

  datatype Peer = Peer(url: string, free: int64)

  // The total of the first i counts, as an unbounded integer.
  function Prefix(peers: seq<Peer>, i: nat): int
    requires i <= |peers|
  {
    if i == 0 then 0 else Prefix(peers, i - 1) + peers[i - 1].free
  }

  ghost predicate Descending(peers: seq<Peer>) {
    forall i, j :: 0 <= i < j < |peers| ==> peers[i].free >= peers[j].free
  }

  // No running total leaves the 64-bit range.
  ghost predicate Fits(peers: seq<Peer>) {
    forall i :: 0 <= i <= |peers| ==> -TWO_63 <= Prefix(peers, i) < TWO_63
  }

  // The first peer whose running total exceeds the draw.
  ghost predicate Selects(peers: seq<Peer>, w: int, i: nat) {
    && i < |peers|
    && AsInt64(Prefix(peers, i + 1)) > w
    && forall j :: 1 <= j <= i ==> AsInt64(Prefix(peers, j)) <= w
  }

  // ---- Running totals --------------------------------------------------------------------

  lemma {:induction false} PrefixOfLonger(peers: seq<Peer>, more: seq<Peer>, i: nat)
    requires i <= |peers|
    ensures Prefix(peers + more, i) == Prefix(peers, i)
  {
    if i > 0 {
      PrefixOfLonger(peers, more, i - 1);
    }
  }

  function Swapped(peers: seq<Peer>, i: nat, j: nat): seq<Peer>
    requires i < |peers| && j < |peers|
  {
    peers[i := peers[j]][j := peers[i]]
  }

  lemma {:induction false} PrefixOfSwapped(peers: seq<Peer>, i: nat, j: nat, k: nat)
    requires i < |peers| && j < |peers| && k <= |peers| && i != j
    ensures Prefix(Swapped(peers, i, j), k) == Prefix(peers, k)
              + (if i < k then peers[j].free - peers[i].free else 0)
              + (if j < k then peers[i].free - peers[j].free else 0)
  {
    if k > 0 {
      PrefixOfSwapped(peers, i, j, k - 1);
    }
  }

  lemma SwapKeepsTotal(peers: seq<Peer>, i: nat, j: nat)
    requires i < |peers| && j < |peers|
    ensures Prefix(Swapped(peers, i, j), |peers|) == Prefix(peers, |peers|)
    ensures multiset(Swapped(peers, i, j)) == multiset(peers)
  {
    if i == j {
      assert Swapped(peers, i, j) == peers;
    } else {
      PrefixOfSwapped(peers, i, j, |peers|);
    }
  }

  lemma {:induction false} PrefixRises(peers: seq<Peer>, i: nat, j: nat)
    requires i <= j <= |peers|
    requires forall k :: i <= k < j ==> peers[k].free >= 0
    ensures Prefix(peers, i) <= Prefix(peers, j)
    decreases j
  {
    if i < j {
      PrefixRises(peers, i, j - 1);
    }
  }

  lemma {:induction false} PrefixFalls(peers: seq<Peer>, i: nat, j: nat)
    requires i <= j <= |peers|
    requires forall k :: i <= k < j ==> peers[k].free <= 0
    ensures Prefix(peers, i) >= Prefix(peers, j)
    decreases j
  {
    if i < j {
      PrefixFalls(peers, i, j - 1);
    }
  }

  // ---- What a draw selects -----------------------------------------------------------------

  /** In a sorted list the draws that select a peer are those between the running totals
      before and after it, so a peer with no free connections, or a negative count, is
      never selected. */
  lemma SelectsIff(peers: seq<Peer>, w: int, i: nat)
    requires Descending(peers) && Fits(peers) && i < |peers| && 0 <= w
    ensures Selects(peers, w, i) <==> Prefix(peers, i) <= w < Prefix(peers, i + 1)
    ensures Selects(peers, w, i) ==> peers[i].free > 0
  {
    hide AsInt64;
    forall j: nat | j <= |peers| ensures AsInt64(Prefix(peers, j)) == Prefix(peers, j) {
      InRange(Prefix(peers, j));
    }
    if Prefix(peers, i) <= w < Prefix(peers, i + 1) {
      assert peers[i].free > 0;
      forall j | 1 <= j <= i ensures AsInt64(Prefix(peers, j)) <= w {
        PrefixRises(peers, j, i);
      }
    }
  }

  lemma SelectsOnce(peers: seq<Peer>, w: int, i: nat, j: nat)
    requires Selects(peers, w, i) && Selects(peers, w, j)
    ensures i == j
  {
    hide AsInt64;
  }

  // The number of draws that select peer i.
  ghost function Weight(peers: seq<Peer>, i: nat): nat
    requires i < |peers|
  {
    |set w: int | 0 <= w < Prefix(peers, |peers|) && Selects(peers, w, i)|
  }

  ghost function Interval(a: int, b: int): set<int>
    decreases b - a
  {
    if a < b then Interval(a, b - 1) + {b - 1} else {}
  }

  lemma {:induction false} IntervalCount(a: int, b: int)
    ensures |Interval(a, b)| == Max(0, b - a) && forall w :: w in Interval(a, b) <==> a <= w < b
    decreases b - a
  {
    if a < b {
      IntervalCount(a, b - 1);
    }
  }

  lemma {:induction false} PrefixIsNotNegative(peers: seq<Peer>, i: nat)
    requires Descending(peers) && i <= |peers| && Prefix(peers, |peers|) >= 0
    ensures Prefix(peers, i) >= 0
  {
    if i == |peers| {
    } else if peers[i].free >= 0 {
      PrefixRises(peers, 0, i);
    } else {
      PrefixFalls(peers, i, |peers|);
    }
  }

  /** In a sorted list a peer is selected by its own count of draws, cut off at the sum. */
  lemma WeightIs(peers: seq<Peer>, i: nat)
    requires Descending(peers) && Fits(peers) && i < |peers| && Prefix(peers, |peers|) > 0
    ensures Weight(peers, i) == Max(0, Min(Prefix(peers, i + 1), Prefix(peers, |peers|)) - Prefix(peers, i))
  {
    hide Selects, Interval, AsInt64, Prefix;
    var low, high := Prefix(peers, i), Min(Prefix(peers, i + 1), Prefix(peers, |peers|));
    PrefixIsNotNegative(peers, i);
    var draws := set w: int | 0 <= w < Prefix(peers, |peers|) && Selects(peers, w, i);
    forall w: int ensures w in draws <==> low <= w < high {
      if 0 <= w {
        SelectsIff(peers, w, i);
      }
    }
    IntervalCount(low, high);
    assert draws == Interval(low, high);
  }

  /** Without negative counts the choice is weighted exactly: FreeConns of the sum draws
      select each peer. */
  lemma ExactWeights(peers: seq<Peer>, i: nat)
    requires Descending(peers) && Fits(peers) && i < |peers| && Prefix(peers, |peers|) > 0
    requires forall k :: 0 <= k < |peers| ==> peers[k].free >= 0
    ensures Weight(peers, i) == peers[i].free
  {
    WeightIs(peers, i);
    PrefixRises(peers, i + 1, |peers|);
  }

  lemma LastPositive(peers: seq<Peer>) returns (m: nat)
    requires Descending(peers) && Prefix(peers, |peers|) > 0 && peers[|peers| - 1].free < 0
    ensures m + 1 < |peers| && peers[m].free > 0 && forall k :: m < k < |peers| ==> peers[k].free <= 0
  {
    m := |peers| - 1;
    while peers[m].free <= 0
      invariant m < |peers| && forall k :: m < k < |peers| ==> peers[k].free <= 0
      decreases m
    {
      if m == 0 {
        PrefixFalls(peers, 0, |peers|);
      }
      m := m - 1;
    }
  }

  /** Exact weights, with nothing for a peer that has no free connections, hold if and
      only if no count is negative. */
  lemma FairIff(peers: seq<Peer>)
    requires Descending(peers) && Fits(peers) && Prefix(peers, |peers|) > 0
    ensures (forall i :: 0 <= i < |peers| ==> Weight(peers, i) == Max(0, peers[i].free)) <==>
            (forall i :: 0 <= i < |peers| ==> peers[i].free >= 0)
  {
    hide Weight, Fits;
    if forall i :: 0 <= i < |peers| ==> peers[i].free >= 0 {
      forall i | 0 <= i < |peers| ensures Weight(peers, i) == Max(0, peers[i].free) {
        ExactWeights(peers, i);
      }
    } else {
      assert peers[|peers| - 1].free < 0;
      var m := LastPositive(peers);
      PrefixFalls(peers, m + 1, |peers| - 1);
      WeightIs(peers, m);
      assert Weight(peers, m) != Max(0, peers[m].free);
    }
  }

  // ---- The peer list ----------------------------------------------------------------------

  class EtcdPeers {
    var peers: seq<Peer>
    var sum: int64

    constructor ()
      ensures Valid() && peers == []
    {
      peers, sum := [], 0;
    }

    ghost predicate Valid()
      reads this
    {
      sum == AsInt64(Prefix(peers, |peers|))
    }

    predicate Less(i: nat, j: nat)
      requires i < |peers| && j < |peers|
      reads this
    {
      peers[j].free < peers[i].free
    }

    method Swap(i: nat, j: nat)
      requires Valid() && i < |peers| && j < |peers|
      modifies this`peers
      ensures Valid() && peers == Swapped(old(peers), i, j) && multiset(peers) == multiset(old(peers))
    {
      SwapKeepsTotal(peers, i, j);
      peers := peers[i := peers[j]][j := peers[i]];
    }

    method Append(peer: Peer)
      requires Valid()
      modifies this
      ensures Valid() && peers == old(peers) + [peer]
    {
      PrefixOfLonger(peers, [peer], |peers|);
      AddWraps(Prefix(peers, |peers|), peer.free);
      peers := peers + [peer];
      sum := AsInt64(sum + peer.free);
    }

    /** Sorting by Less and Swap alone: most free connections first, the same peers, the
        same sum. */
    method Sort()
      requires Valid()
      modifies this`peers
      ensures Valid() && Descending(peers) && multiset(peers) == multiset(old(peers))
    {
      var i := 0;
      while i < |peers|
        invariant i <= |peers| && |peers| == |old(peers)|
        invariant Valid() && Descending(peers[..i]) && multiset(peers) == multiset(old(peers))
      {
        var j := i;
        while j > 0 && Less(j, j - 1)
          invariant j <= i < |peers| && |peers| == |old(peers)|
          invariant Valid() && multiset(peers) == multiset(old(peers))
          invariant forall a, b :: 0 <= a < b <= i && b != j ==> peers[a].free >= peers[b].free
        {
          Swap(j, j - 1);
          j := j - 1;
        }
        i := i + 1;
      }
      assert peers[..i] == peers;
    }

    /** A weighted choice for one draw below the sum. The index is in range for every draw,
        whatever the counts and even if their total wrapped; the shortcut for one peer
        agrees with the loop. */
    method Choose(draw: int64) returns (peer: Option<Peer>, index: nat)
      requires Valid() && (sum > 0 ==> 0 <= draw < sum)
      ensures peer.Some? <==> |peers| > 0 && sum > 0
      ensures peer.Some? ==> Selects(peers, draw, index) && peer == Some(peers[index])
    {
      hide AsInt64;
      InRange(0);
      index := 0;
      if |peers| == 0 || sum <= 0 {
        return None, 0;
      }
      if |peers| == 1 {
        return Some(peers[0]), 0;
      }
      var count: int64 := 0;
      while true
        invariant index < |peers| && count == AsInt64(Prefix(peers, index))
        invariant forall j :: 1 <= j <= index ==> AsInt64(Prefix(peers, j)) <= draw
        decreases |peers| - index
      {
        AddWraps(Prefix(peers, index), peers[index].free);
        count := AsInt64(count + peers[index].free);
        if count > draw {
          break;
        }
        index := index + 1;
      }
      peer := Some(peers[index]);
    }
  }

  // ---- Reading the list from etcd -----------------------------------------------------------

  /** A node of the etcd directory tree, and who is asking. */
  datatype Node = Node(key: string, value: string, nodes: seq<Node>)

  datatype Origin = Origin(dir: string, scheme: string, host: string)

  datatype KeyResult = Place(scheme: string, host: string) | ErrNoDir | ErrNoHost

  function FirstSlash(s: string): (i: nat)
    ensures i <= |s|
    ensures i < |s| ==> s[i] == '/'
    ensures forall k :: 0 <= k < i ==> s[k] != '/'
  {
    if s == "" || s[0] == '/' then 0 else 1 + FirstSlash(s[1..])
  }

  function TrimPrefix(s: string, prefix: string): string {
    if prefix <= s then s[|prefix|..] else s
  }

  // The scheme and host in a key like "/push_free_conns/ws/172.16.0.0:8081".
  function ParseKey(dir: string, key: string): KeyResult {
    if key == "" || key[0] != '/' then ErrNoDir
    else
      var path := TrimPrefix(key[1..], dir);
      if path == "" then ErrNoDir
      else
        var rest := path[1..];
        var i := FirstSlash(rest);
        if i == |rest| then ErrNoHost else Place(rest[..i], rest[i + 1..])
  }

  /** The key a host publishes under is parsed back into its scheme and host if and only
      if the scheme has no slash. */
  lemma PublishedKeyParses(dir: string, scheme: string, host: string)
    ensures ParseKey(dir, "/" + dir + "/" + scheme + "/" + host) == Place(scheme, host) <==> '/' !in scheme
  {
    hide FirstSlash;
    var key, rest := "/" + dir + "/" + scheme + "/" + host, scheme + "/" + host;
    assert key[1..] == dir + ("/" + rest);
    assert TrimPrefix(key[1..], dir) == "/" + rest;
    assert ("/" + rest)[1..] == rest;
    SlashSplits(scheme, host);
  }

  lemma SlashSplits(scheme: string, host: string)
    ensures var rest := scheme + "/" + host;
            var i := FirstSlash(rest);
            && i < |rest|
            && (rest[..i] == scheme && rest[i + 1..] == host <==> '/' !in scheme)
  {
    hide FirstSlash;
    var rest := scheme + "/" + host;
    var i := FirstSlash(rest);
    assert rest[|scheme|] == '/';
    if '/' in scheme {
      var k :| 0 <= k < |scheme| && scheme[k] == '/';
      assert rest[k] == '/';
    } else {
      assert forall k :: 0 <= k < |scheme| ==> rest[k] == scheme[k];
      assert rest[..i] == scheme && rest[i + 1..] == host;
    }
  }

  /** Which keys parse, and to what: a slash, then the directory or not, then one character
      taken for a slash, and the first slash after that divides scheme and host. */
  lemma ParseKeyIff(dir: string, key: string, scheme: string, host: string)
    ensures var slashed := key != "" && key[0] == '/';
            var path := if !slashed then "" else if dir <= key[1..] then key[1 + |dir|..] else key[1..];
            && (ParseKey(dir, key) == ErrNoDir <==> path == "")
            && (ParseKey(dir, key) == ErrNoHost <==> path != "" && '/' !in path[1..])
            && (ParseKey(dir, key) == Place(scheme, host) <==> path != "" && path[1..] == scheme + "/" + host && '/' !in scheme)
  {
    hide FirstSlash;
    if key != "" && key[0] == '/' {
      assert dir <= key[1..] ==> key[1..][|dir|..] == key[1 + |dir|..];
      var path := TrimPrefix(key[1..], dir);
      if path != "" {
        SlashDivides(path[1..], scheme, host);
      }
    }
  }

  lemma SlashDivides(rest: string, scheme: string, host: string)
    ensures var i := FirstSlash(rest);
            && (i == |rest| <==> '/' !in rest)
            && (i < |rest| && rest[..i] == scheme && rest[i + 1..] == host <==> rest == scheme + "/" + host && '/' !in scheme)
  {
    hide FirstSlash;
    var i := FirstSlash(rest);
    if i < |rest| {
      assert rest[i] in rest;
      assert rest == rest[..i] + "/" + rest[i + 1..];
    }
    if rest == scheme + "/" + host {
      SlashSplits(scheme, host);
    }
  }

  // A leaf stands for another host with a readable count other than zero; negative
  // counts stay. `parse` reads a decimal number.
  function KeptPeer(o: Origin, parse: string -> Option<int64>, n: Node): Option<Peer> {
    if n.value == "" then None
    else match ParseKey(o.dir, n.key)
      case Place(scheme, host) =>
        if scheme == o.scheme && host == o.host then None
        else (match parse(n.value)
              case Some(count) => if count == 0 then None else Some(Peer(scheme + "://" + host, count))
              case None => None)
      case _ => None
  }

  /** What a leaf stands for: another host, by scheme or host, whose key parses and whose
      count is readable and not zero, under its scheme://host. */
  lemma KeptIff(o: Origin, parse: string -> Option<int64>, n: Node, p: Peer)
    ensures KeptPeer(o, parse, n) == Some(p) <==>
            && n.value != "" && ParseKey(o.dir, n.key).Place?
            && (ParseKey(o.dir, n.key).scheme != o.scheme || ParseKey(o.dir, n.key).host != o.host)
            && parse(n.value) == Some(p.free) && p.free != 0
            && p.url == ParseKey(o.dir, n.key).scheme + "://" + ParseKey(o.dir, n.key).host
  {
  }

  /** A host that publishes a count is kept by every other host, and by itself never. */
  lemma PublishedIsKept(o: Origin, parse: string -> Option<int64>, scheme: string, host: string, value: string, count: int64)
    requires '/' !in scheme && value != "" && parse(value) == Some(count)
    ensures var n := Node("/" + o.dir + "/" + scheme + "/" + host, value, []);
            KeptPeer(o, parse, n) == if (scheme == o.scheme && host == o.host) || count == 0 then None
                                     else Some(Peer(scheme + "://" + host, count))
  {
    hide ParseKey;
    PublishedKeyParses(o.dir, scheme, host);
  }

  // The leaves in the order of the walk.
  function Leaves(n: Node): seq<Node>
    decreases n, |n.nodes| + 1
  {
    if n.nodes == [] then [n] else LeavesBelow(n, |n.nodes|)
  }

  function LeavesBelow(n: Node, k: nat): seq<Node>
    requires k <= |n.nodes|
    decreases n, k
  {
    if k == 0 then [] else LeavesBelow(n, k - 1) + Leaves(n.nodes[k - 1])
  }

  function KeptPeers(o: Origin, parse: string -> Option<int64>, leaves: seq<Node>): seq<Peer> {
    if leaves == [] then []
    else
      var kept, front := KeptPeer(o, parse, leaves[|leaves| - 1]), KeptPeers(o, parse, leaves[..|leaves| - 1]);
      if kept.Some? then front + [kept.value] else front
  }

  lemma {:induction false} KeptPeersConcat(o: Origin, parse: string -> Option<int64>, a: seq<Node>, b: seq<Node>)
    ensures KeptPeers(o, parse, a + b) == KeptPeers(o, parse, a) + KeptPeers(o, parse, b)
    decreases |b|
  {
    if b == [] {
      assert a + b == a;
    } else {
      assert (a + b)[..|a + b| - 1] == a + b[..|b| - 1];
      KeptPeersConcat(o, parse, a, b[..|b| - 1]);
    }
  }

  method WalkLeaf(o: Origin, parse: string -> Option<int64>, n: Node, p: EtcdPeers)
    requires p.Valid()
    modifies p
    ensures p.Valid() && p.peers == old(p.peers) + KeptPeers(o, parse, [n])
  {
    assert [n][..0] == [];
    if n.value == "" {
      return;
    }
    var place := ParseKey(o.dir, n.key);
    if !place.Place? || (place.scheme == o.scheme && place.host == o.host) {
      return;
    }
    var count := parse(n.value);
    if count.None? || count.value == 0 {
      return;
    }
    p.Append(Peer(place.scheme + "://" + place.host, count.value));
  }

  lemma NoneKept(o: Origin, parse: string -> Option<int64>)
    ensures KeptPeers(o, parse, []) == []
  {
  }

  method EtcdWalk(o: Origin, parse: string -> Option<int64>, n: Node, p: EtcdPeers)
    requires p.Valid()
    modifies p
    ensures p.Valid() && p.peers == old(p.peers) + KeptPeers(o, parse, Leaves(n))
    decreases n
  {
    hide KeptPeers, KeptPeer, ParseKey, Prefix, AsInt64;
    NoneKept(o, parse);
    if |n.nodes| == 0 {
      WalkLeaf(o, parse, n, p);
      return;
    }
    for k := 0 to |n.nodes|
      invariant p.Valid() && p.peers == old(p.peers) + KeptPeers(o, parse, LeavesBelow(n, k))
    {
      KeptPeersConcat(o, parse, LeavesBelow(n, k), Leaves(n.nodes[k]));
      EtcdWalk(o, parse, n.nodes[k], p);
    }
  }

  method FilterPeers(o: Origin, parse: string -> Option<int64>, root: Node) returns (p: EtcdPeers)
    ensures fresh(p) && p.Valid() && p.peers == KeptPeers(o, parse, Leaves(root))
  {
    p := new EtcdPeers();
    EtcdWalk(o, parse, root, p);
  }

  /** What Fetch leaves in the balancer: the kept peers, sorted, with their sum; nothing
      if etcd did not answer after the retries. */
  method Fetch(o: Origin, parse: string -> Option<int64>, response: Option<Node>) returns (r: Option<EtcdPeers>)
    ensures r.Some? <==> response.Some?
    ensures r.Some? ==>
              && fresh(r.value) && r.value.Valid() && Descending(r.value.peers)
              && multiset(r.value.peers) == multiset(KeptPeers(o, parse, Leaves(response.value)))
  {
    if response.None? {
      return None;
    }
    var p := FilterPeers(o, parse, response.value);
    p.Sort();
    r := Some(p);
  }

  // Peer i has this URL, was selected by the draw and is worth redirecting to.
  ghost predicate Usable(p: EtcdPeers, draw: int64, ownFree: int, url: string, i: nat)
    reads p
  {
    && Selects(p.peers, draw, i)
    && p.peers[i].url == url
    && p.peers[i].free > ownFree
    && (Fits(p.peers) ==> p.peers[i].free > 0)
  }

  datatype Outcome = Stay | NoPeers | Redirect(url: string, stale: bool) | NilPointer

  /** RedirectURL for a host over its threshold. The list is nil until the first fetch,
      and then a redirect is a nil dereference. A peer is used only if it has more free
      connections than this host, and then, the list being sorted and in range, it does
      have free ones. `stale` is an expired fetch error, returned beside the peer. */
  method RedirectURL(over: bool, peers: Option<EtcdPeers>, stale: bool, ownFree: int, draw: int64) returns (r: Outcome)
    requires peers.Some? ==> var p := peers.value;
                             p.Valid() && Descending(p.peers) && (p.sum > 0 ==> 0 <= draw < p.sum)
    ensures r == Stay <==> !over
    ensures r == NilPointer <==> over && peers.None?
    ensures over && peers.Some? && peers.value.sum <= 0 ==> r == NoPeers
    ensures r == NoPeers ==> peers.value.sum <= 0 ||
                              forall i: nat :: Selects(peers.value.peers, draw, i) ==> peers.value.peers[i].free <= ownFree
    ensures r.Redirect? ==> r.stale == stale && exists i :: Usable(peers.value, draw, ownFree, r.url, i)
  {
    if !over {
      return Stay;
    }
    if peers.None? {
      return NilPointer;
    }
    var peer, i := peers.value.Choose(draw);
    if peer.None? || ownFree >= peer.value.free {
      forall j: nat | Selects(peers.value.peers, draw, j) && peer.Some? ensures j == i {
        SelectsOnce(peers.value.peers, draw, i, j);
      }
      return NoPeers;
    }
    if Fits(peers.value.peers) {
      SelectsIff(peers.value.peers, draw, i);
    }
    assert Usable(peers.value, draw, ownFree, peer.value.url, i);
    return Redirect(peer.value.url, stale);
  }
}

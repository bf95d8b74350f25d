/** Broadcasting an update to the other hosts in buckets (router_broadcast.go). Each
    contact answers a probe with true or false; the answers, the router's close signal,
    the caller's cancel signal and the bucket's timer arrive in any order. */
module Broadcast {
  import opened Prelude
  import opened Arithmetic
  import opened Varint

  datatype Error = Eof | SliceOutOfRange

  // What one turn of the bucket's loop receives; answers name the contact's place in the bucket.
  datatype Event = RouterClosed | Cancelled | TimedOut | Answered(contact: nat)

  type Events = nat -> Event
  type Contact = string

  // Each contact of the bucket sends one answer into the bucket's own channel.
  ghost predicate Genuine(events: Events, n: nat) {
    && (forall t :: 0 <= t < n && events(t).Answered? ==> events(t).contact < n)
    && (forall t, u :: 0 <= t < u < n && events(t).Answered? && events(u).Answered? ==> events(t).contact != events(u).contact)
  }

  ghost predicate Accepts(contacts: seq<Contact>, accepts: Contact -> bool, e: Event) {
    e.Answered? && e.contact < |contacts| && accepts(contacts[e.contact])
  }

  ghost predicate Uninterrupted(events: Events, n: nat) {
    forall t :: 0 <= t < n ==> events(t).Answered?
  }

  ghost predicate SomeAccepts(contacts: seq<Contact>, accepts: Contact -> bool) {
    exists i :: 0 <= i < |contacts| && accepts(contacts[i])
  }

  // The contacts heard in the first k turns, and all the contacts of a bucket of k.
  ghost function Senders(events: Events, k: nat): set<nat> {
    if k == 0 then {}
    else if events(k - 1).Answered? then Senders(events, k - 1) + {events(k - 1).contact}
    else Senders(events, k - 1)
  }

  ghost function Below(k: nat): set<nat> {
    if k == 0 then {} else Below(k - 1) + {k - 1}
  }

  lemma {:induction false} BelowCount(k: nat)
    ensures |Below(k)| == k && forall c: nat :: c in Below(k) <==> c < k
  {
    if k > 0 {
      BelowCount(k - 1);
    }
  }

  lemma {:induction false} HeardAt(events: Events, k: nat, c: nat) returns (t: nat)
    requires c in Senders(events, k)
    ensures t < k && events(t) == Answered(c)
  {
    if c in Senders(events, k - 1) {
      t := HeardAt(events, k - 1, c);
    } else {
      t := k - 1;
    }
  }

  lemma {:induction false} SendersCount(events: Events, n: nat, k: nat)
    requires Genuine(events, n) && Uninterrupted(events, n) && k <= n
    ensures |Senders(events, k)| == k
  {
    if k > 0 {
      SendersCount(events, n, k - 1);
      if events(k - 1).contact in Senders(events, k - 1) {
        var t := HeardAt(events, k - 1, events(k - 1).contact);
      }
    }
  }

  /** n answers from different contacts of a bucket of n are answers from all of them. */
  lemma EveryAnswerIsHeard(events: Events, n: nat, i: nat) returns (t: nat)
    requires Genuine(events, n) && Uninterrupted(events, n) && i < n
    ensures t < n && events(t) == Answered(i)
  {
    SendersCount(events, n, n);
    BelowCount(n);
    if i in Senders(events, n) {
      t := HeardAt(events, n, i);
    } else {
      forall c | c in Senders(events, n) ensures c in Below(n) - {i} {
        var u := HeardAt(events, n, c);
      }
      Contained(Senders(events, n), Below(n) - {i});
      assert false;
    }
  }

  lemma Contained(a: set<nat>, b: set<nat>)
    requires a <= b
    ensures |a| <= |b|
  {
    assert b == a + (b - a);
  }

  /** How the loop over a bucket ends, from turn t on. */
  function BucketEnds(contacts: seq<Contact>, accepts: Contact -> bool, events: Events, t: nat): (bool, Option<Error>)
    decreases |contacts| - t
  {
    if t >= |contacts| then (false, None)
    else match events(t)
      case RouterClosed => (false, Some(Eof))
      case Answered(c) =>
        if c < |contacts| && accepts(contacts[c]) then (true, None) else BucketEnds(contacts, accepts, events, t + 1)
      case _ => BucketEnds(contacts, accepts, events, t + 1)
  }

  /** One bucket: as many turns as contacts, fewer when a contact accepts or the router
      closes. A cancel or a timeout uses up a turn, so only when neither comes is an
      accepting contact sure to be noticed. */
  method NotifyBucket(contacts: seq<Contact>, accepts: Contact -> bool, events: Events)
    returns (delivered: bool, err: Option<Error>, turns: nat)
    requires Genuine(events, |contacts|)
    ensures turns <= |contacts| && (delivered, err) == BucketEnds(contacts, accepts, events, 0)
    ensures forall t :: 0 <= t < turns - 1 ==> !events(t).RouterClosed? && !Accepts(contacts, accepts, events(t))
    ensures delivered <==> turns > 0 && Accepts(contacts, accepts, events(turns - 1))
    ensures err == (if turns > 0 && events(turns - 1).RouterClosed? then Some(Eof) else None)
    ensures !delivered && err.None? ==> turns == |contacts|
    ensures delivered ==> err.None? && SomeAccepts(contacts, accepts)
    ensures Uninterrupted(events, |contacts|) ==> err.None? && (delivered <==> SomeAccepts(contacts, accepts))
  {
    delivered, err, turns := false, None, 0;
    while !delivered && turns < |contacts|
      invariant turns <= |contacts| && err.None?
      invariant forall t :: 0 <= t < turns - 1 ==> !events(t).RouterClosed? && !Accepts(contacts, accepts, events(t))
      invariant turns > 0 ==> !events(turns - 1).RouterClosed?
      invariant BucketEnds(contacts, accepts, events, 0) ==
                if delivered then (true, None) else BucketEnds(contacts, accepts, events, turns)
      invariant delivered <==> turns > 0 && Accepts(contacts, accepts, events(turns - 1))
      decreases |contacts| - turns
    {
      var e := events(turns);
      turns := turns + 1;
      match e {
        case RouterClosed => return false, Some(Eof), turns;
        case Cancelled =>
        case TimedOut =>
        case Answered(c) => delivered := accepts(contacts[c]);
      }
    }
    if Uninterrupted(events, |contacts|) && !delivered && SomeAccepts(contacts, accepts) {
      var i :| 0 <= i < |contacts| && accepts(contacts[i]);
      ghost var t := EveryAnswerIsHeard(events, |contacts|, i);
      assert Accepts(contacts, accepts, events(t));
      assert false;
    }
  }

  // ---- Which contacts are probed -------------------------------------------------------

  /** Where bucket k starts: (2^k - 1) * b, because each step adds the end of the bucket
      to its start rather than moving to it. */
  function Start(k: nat, b: nat): nat {
    (Pow2(k) - 1) * b
  }

  lemma StartNext(k: nat, b: nat)
    ensures Start(k + 1, b) == Start(k, b) + (Start(k, b) + b)
  {
    var p := Pow2(k);
    assert Pow2(k + 1) == 2 * p;
    assert (2 * p - 1) * b == (p - 1) * b + ((p - 1) * b + b);
  }

  lemma {:induction false} StartAscends(j: nat, k: nat, b: nat)
    requires j < k
    ensures Start(j, b) + b <= Start(k, b)
    decreases k
  {
    hide Start;
    StartNext(k - 1, b);
    if j < k - 1 {
      StartAscends(j, k - 1, b);
    }
  }

  type Bucket = (nat, nat)

  function Length(k: nat, b: nat, n: nat): nat {
    if Start(k, b) < n then Min(b, n - Start(k, b)) else 0
  }

  // The buckets probed so far, each as its first contact and the one after its last.
  ghost predicate Ladder(buckets: seq<Bucket>, b: nat, n: nat) {
    forall k :: 0 <= k < |buckets| ==> Start(k, b) < n && buckets[k] == (Start(k, b), Min(Start(k, b) + b, n))
  }

  ghost predicate Probed(buckets: seq<Bucket>, i: nat) {
    exists k :: 0 <= k < |buckets| && buckets[k].0 <= i < buckets[k].1
  }

  // Reached by the broadcast if nothing stops it.
  ghost predicate Reachable(i: nat, b: nat) {
    exists k: nat :: Start(k, b) <= i < Start(k, b) + b
  }

  /** Buckets are disjoint and in ascending order. */
  lemma BucketsAreDisjoint(buckets: seq<Bucket>, b: nat, n: nat, j: nat, k: nat)
    requires Ladder(buckets, b, n) && j < k < |buckets|
    ensures buckets[j].0 <= buckets[j].1 <= buckets[k].0 <= buckets[k].1 <= n
  {
    StartAscends(j, k, b);
  }

  /** A broadcast that was not cut short probed exactly the reachable contacts. */
  lemma ProbedIffReachable(buckets: seq<Bucket>, b: nat, n: nat, i: nat)
    requires Ladder(buckets, b, n) && Start(|buckets|, b) >= n && i < n
    ensures Probed(buckets, i) <==> Reachable(i, b)
  {
    hide Start;
    if Probed(buckets, i) {
      var k :| 0 <= k < |buckets| && buckets[k].0 <= i < buckets[k].1;
      assert Start(k, b) <= i < Start(k, b) + b;
    }
    if Reachable(i, b) {
      var k: nat :| Start(k, b) <= i < Start(k, b) + b;
      if k >= |buckets| {
        if k > |buckets| {
          StartAscends(|buckets|, k, b);
        }
        assert false;
      }
      assert buckets[k].0 <= i < buckets[k].1;
    }
  }

  /** The documented partition, every contact in some bucket, holds exactly for at most
      two buckets' worth of contacts: contact 2b is never reached. */
  lemma PartitionIff(b: nat, n: nat)
    requires b >= 1
    ensures (forall i :: 0 <= i < n ==> Reachable(i, b)) <==> n <= 2 * b
  {
    assert Start(0, b) == 0 && Start(1, b) == b && Start(2, b) == 3 * b by {
      assert Pow2(0) == 1 && Pow2(1) == 2 && Pow2(2) == 4;
    }
    hide Start;
    if n <= 2 * b {
      forall i | 0 <= i < n ensures Reachable(i, b) {
        assert Start(0, b) <= i < Start(0, b) + b || Start(1, b) <= i < Start(1, b) + b;
      }
    } else {
      forall k: nat ensures !(Start(k, b) <= 2 * b < Start(k, b) + b) {
        if k > 2 {
          StartAscends(2, k, b);
        }
      }
      assert !Reachable(2 * b, b);
    }
  }

  ghost predicate AllUninterrupted(events: nat -> Events, b: nat, n: nat) {
    forall k: nat :: Uninterrupted(events(k), Length(k, b, n))
  }

  // ---- When the loop ends ----------------------------------------------------------------

  /** The state of notifyAll's loop: about to probe the bucket at an index, or done. */
  datatype Loop = Running(fromIndex: nat) | Ended(delivered: bool, err: Option<Error>)

  // One turn: probe the bucket, then add its end to its start.
  function Turn(contacts: seq<Contact>, b: int, accepts: Contact -> bool, events: Events, from: nat): (l: Loop)
    requires from < |contacts|
    ensures l.Running? ==> l.fromIndex < |contacts|
  {
    var to := Min(from + b, |contacts|);
    if to < from then Ended(false, Some(SliceOutOfRange))
    else
      var (delivered, err) := BucketEnds(contacts[from..to], accepts, events, 0);
      if err.Some? || delivered || from + to >= |contacts| then Ended(delivered, err) else Running(from + to)
  }

  // The state after k turns; events(k) is what bucket k receives.
  function After(contacts: seq<Contact>, b: int, accepts: Contact -> bool, events: nat -> Events, k: nat): (l: Loop)
    ensures l.Running? ==> l.fromIndex < |contacts|
  {
    if k == 0 then if contacts == [] then Ended(false, None) else Running(0)
    else
      var l := After(contacts, b, accepts, events, k - 1);
      if l.Running? then Turn(contacts, b, accepts, events(k - 1), l.fromIndex) else l
  }

  /** With a bucket size of 0 the loop never moves: whatever is received, every turn probes
      an empty bucket at index 0 and leads back to index 0, with nothing delivered. */
  lemma {:induction false} ZeroBucketStalls(contacts: seq<Contact>, accepts: Contact -> bool, events: nat -> Events, k: nat)
    requires contacts != []
    ensures After(contacts, 0, accepts, events, k) == Running(0)
  {
    if k > 0 {
      ZeroBucketStalls(contacts, accepts, events, k - 1);
    }
  }

  lemma {:induction false} LoopAdvances(contacts: seq<Contact>, b: int, accepts: Contact -> bool, events: nat -> Events, k: nat)
    requires b > 0
    ensures var l := After(contacts, b, accepts, events, k); l.Running? ==> l.fromIndex >= k
  {
    if k > 0 {
      LoopAdvances(contacts, b, accepts, events, k - 1);
    }
  }

  /** For all contacts and all they and the router do, the broadcast ends if and only if
      the bucket size is not 0 or there is nobody to probe. */
  lemma EndsIff(contacts: seq<Contact>, b: int, accepts: Contact -> bool, events: nat -> Events)
    ensures (exists k :: After(contacts, b, accepts, events, k).Ended?) <==> b != 0 || contacts == []
  {
    if contacts == [] {
      assert After(contacts, b, accepts, events, 0).Ended?;
    } else if b > 0 {
      LoopAdvances(contacts, b, accepts, events, |contacts|);
      assert After(contacts, b, accepts, events, |contacts|).Ended?;
    } else if b < 0 {
      assert After(contacts, b, accepts, events, 0) == Running(0);
      assert After(contacts, b, accepts, events, 1).Ended?;
    } else {
      forall k: nat ensures After(contacts, b, accepts, events, k) == Running(0) {
        ZeroBucketStalls(contacts, accepts, events, k);
      }
    }
  }

  /** The whole broadcast, wherever it ends at all. A negative bucket size is a slice
      out of range. Nothing is delivered unless a probed contact accepted, and if
      no bucket was interrupted, an acceptance by any reachable contact is found. */
  method NotifyAll(contacts: seq<Contact>, bucketSize: int, accepts: Contact -> bool, events: nat -> Events)
    returns (delivered: bool, err: Option<Error>, buckets: seq<Bucket>)
    requires bucketSize != 0 || contacts == []
    requires bucketSize > 0 ==> forall k: nat :: Genuine(events(k), Length(k, bucketSize, |contacts|))
    ensures After(contacts, bucketSize, accepts, events, |buckets| + 1) == Ended(delivered, err)
    ensures bucketSize < 0 && contacts != [] ==> !delivered && err == Some(SliceOutOfRange) && buckets == []
    ensures bucketSize > 0 ==>
              && Ladder(buckets, bucketSize, |contacts|)
              && (!delivered && err.None? ==> Start(|buckets|, bucketSize) >= |contacts|)
              && (err.Some? ==> err == Some(Eof) && exists k, t :: 0 <= k < |buckets| && 0 <= t < bucketSize && events(k)(t).RouterClosed?)
    ensures delivered ==> Found(contacts, accepts, buckets)
    ensures bucketSize > 0 && AllUninterrupted(events, bucketSize, |contacts|) ==>
              && err.None?
              && (delivered <==> exists i :: 0 <= i < |contacts| && Reachable(i, bucketSize) && accepts(contacts[i]))
  {
    hide Start, Length, Accepts, Genuine, Uninterrupted, Found, SomeAccepts, Ladder, Reachable, Turn, BucketEnds, After;
    delivered, err, buckets := false, None, [];
    var n, fromIndex := |contacts|, 0;
    Starts(contacts, bucketSize, accepts, events);
    while !delivered && fromIndex < n
      invariant 0 <= fromIndex && err.None?
      invariant Standing(contacts, bucketSize, accepts, events, buckets, fromIndex, delivered)
      decreases n - fromIndex
    {
      var toIndex := fromIndex + bucketSize;
      if toIndex > n {
        toIndex := n;
      }
      TurnIs(contacts, bucketSize, accepts, events, |buckets|, fromIndex);
      if toIndex < fromIndex {
        return false, Some(SliceOutOfRange), buckets;
      }
      NextLength(contacts, bucketSize, accepts, events, buckets, fromIndex);
      var bucket := contacts[fromIndex..toIndex];
      var turns;
      delivered, err, turns := NotifyBucket(bucket, accepts, events(|buckets|));
      TurnKeeps(contacts, bucketSize, accepts, events, buckets, fromIndex, delivered, err);
      buckets := buckets + [(fromIndex, toIndex)];
      if err.Some? {
        assert events(|buckets| - 1)(turns - 1).RouterClosed?;
        EndedStays(contacts, bucketSize, accepts, events, |buckets|);
        return;
      }
      fromIndex := fromIndex + toIndex;
    }
    EndedStays(contacts, bucketSize, accepts, events, |buckets|);
    if bucketSize > 0 && AllUninterrupted(events, bucketSize, n) {
      FoundIff(contacts, accepts, buckets, bucketSize, delivered);
    }
  }

  // What holds between turns.
  ghost predicate Standing(contacts: seq<Contact>, b: int, accepts: Contact -> bool, events: nat -> Events,
                           buckets: seq<Bucket>, from: nat, delivered: bool)
  {
    var n := |contacts|;
    && After(contacts, b, accepts, events, |buckets|) == (if delivered || from >= n then Ended(delivered, None) else Running(from))
    && (delivered ==> Found(contacts, accepts, buckets))
    && (b <= 0 ==> buckets == [] && from == 0)
    && (b > 0 ==> Progress(buckets, b, n, from))
    && (b > 0 && !delivered && AllUninterrupted(events, b, n) ==> !Found(contacts, accepts, buckets))
  }

  lemma Starts(contacts: seq<Contact>, b: int, accepts: Contact -> bool, events: nat -> Events)
    ensures Standing(contacts, b, accepts, events, [], 0, false)
  {
    assert b > 0 ==> Start(0, b) == 0;
  }

  lemma EndedStays(contacts: seq<Contact>, b: int, accepts: Contact -> bool, events: nat -> Events, k: nat)
    requires After(contacts, b, accepts, events, k).Ended?
    ensures After(contacts, b, accepts, events, k + 1) == After(contacts, b, accepts, events, k)
  {
  }

  lemma NextLength(contacts: seq<Contact>, b: int, accepts: Contact -> bool, events: nat -> Events,
                   buckets: seq<Bucket>, from: nat)
    requires Standing(contacts, b, accepts, events, buckets, from, false) && from < |contacts| && b > 0
    ensures Length(|buckets|, b, |contacts|) == Min(from + b, |contacts|) - from
  {
  }

  lemma TurnKeeps(contacts: seq<Contact>, b: int, accepts: Contact -> bool, events: nat -> Events,
                  buckets: seq<Bucket>, from: nat, delivered: bool, err: Option<Error>)
    requires Standing(contacts, b, accepts, events, buckets, from, false) && from < |contacts| && b > 0
    requires var bucket, ev := contacts[from..Min(from + b, |contacts|)], events(|buckets|);
             && (delivered, err) == BucketEnds(bucket, accepts, ev, 0)
             && (delivered ==> SomeAccepts(bucket, accepts) && err.None?)
             && (Uninterrupted(ev, |bucket|) ==> err.None? && (delivered <==> SomeAccepts(bucket, accepts)))
    ensures var to := Min(from + b, |contacts|);
            var more := buckets + [(from, to)];
            && (err.None? ==> Standing(contacts, b, accepts, events, more, from + to, delivered))
            && (err.Some? ==> After(contacts, b, accepts, events, |more|) == Ended(false, err))
            && Ladder(more, b, |contacts|)
            && (AllUninterrupted(events, b, |contacts|) ==> err.None?)
  {
    hide Start, Length, Found, Reachable, SomeAccepts, BucketEnds, Turn, After, Ladder, Uninterrupted;
    var to := Min(from + b, |contacts|);
    NextLength(contacts, b, accepts, events, buckets, from);
    TurnIs(contacts, b, accepts, events, |buckets|, from);
    ProgressStep(buckets, b, |contacts|, from);
    FoundGrows(contacts, accepts, buckets, from, to);
  }

  lemma TurnIs(contacts: seq<Contact>, b: int, accepts: Contact -> bool, events: nat -> Events, k: nat, from: nat)
    requires from < |contacts| && After(contacts, b, accepts, events, k) == Running(from)
    ensures var to, l := Min(from + b, |contacts|), After(contacts, b, accepts, events, k + 1);
            && (to < from ==> l == Ended(false, Some(SliceOutOfRange)))
            && (from <= to ==>
                  var (delivered, err) := BucketEnds(contacts[from..to], accepts, events(k), 0);
                  l == if err.Some? || delivered || from + to >= |contacts| then Ended(delivered, err) else Running(from + to))
  {
  }

  // Some probed contact accepts.
  ghost predicate Found(contacts: seq<Contact>, accepts: Contact -> bool, buckets: seq<Bucket>) {
    exists i :: 0 <= i < |contacts| && Probed(buckets, i) && accepts(contacts[i])
  }

  // Where the loop stands: at the start of the next bucket, or past the end.
  ghost predicate Progress(buckets: seq<Bucket>, b: nat, n: nat, fromIndex: nat) {
    && Ladder(buckets, b, n)
    && if fromIndex < n then fromIndex == Start(|buckets|, b) else Start(|buckets|, b) >= n
  }

  lemma ProgressStep(buckets: seq<Bucket>, b: nat, n: nat, fromIndex: nat)
    requires Progress(buckets, b, n, fromIndex) && fromIndex < n
    ensures var toIndex := Min(fromIndex + b, n);
            Progress(buckets + [(fromIndex, toIndex)], b, n, fromIndex + toIndex)
  {
    hide Start;
    StartNext(|buckets|, b);
  }

  lemma FoundGrows(contacts: seq<Contact>, accepts: Contact -> bool, buckets: seq<Bucket>, from: nat, to: nat)
    requires from <= to <= |contacts|
    ensures Found(contacts, accepts, buckets + [(from, to)]) <==>
            Found(contacts, accepts, buckets) || SomeAccepts(contacts[from..to], accepts)
  {
    var more, bucket := buckets + [(from, to)], contacts[from..to];
    forall i: nat ensures Probed(more, i) <==> Probed(buckets, i) || from <= i < to {
      if Probed(buckets, i) {
        var k :| 0 <= k < |buckets| && buckets[k].0 <= i < buckets[k].1;
        assert more[k] == buckets[k];
      }
      assert more[|buckets|] == (from, to);
    }
    if SomeAccepts(bucket, accepts) {
      var j :| 0 <= j < |bucket| && accepts(bucket[j]);
      assert contacts[from + j] == bucket[j] && Probed(more, from + j);
    }
    if Found(contacts, accepts, more) && !Found(contacts, accepts, buckets) {
      var i :| 0 <= i < |contacts| && Probed(more, i) && accepts(contacts[i]);
      assert bucket[i - from] == contacts[i];
    }
  }

  lemma FoundIff(contacts: seq<Contact>, accepts: Contact -> bool, buckets: seq<Bucket>, b: nat, delivered: bool)
    requires Ladder(buckets, b, |contacts|) && (delivered <==> Found(contacts, accepts, buckets))
    requires !delivered ==> Start(|buckets|, b) >= |contacts|
    ensures delivered <==> exists i :: 0 <= i < |contacts| && Reachable(i, b) && accepts(contacts[i])
  {
    hide Start;
    if delivered {
      var i :| 0 <= i < |contacts| && Probed(buckets, i) && accepts(contacts[i]);
      var k :| 0 <= k < |buckets| && buckets[k].0 <= i < buckets[k].1;
      assert Start(k, b) <= i < Start(k, b) + b;
      assert Reachable(i, b);
    } else {
      forall i | 0 <= i < |contacts| && Reachable(i, b) ensures !accepts(contacts[i]) {
        ProbedIffReachable(buckets, b, |contacts|, i);
      }
    }
  }
}

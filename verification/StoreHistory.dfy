/** Whole runs of the store: what a device is told depends only on the history
    of each of its channels. */
module StoreHistory {
  import opened Prelude
  import opened Ids
  import opened Keys
  import opened ChannelLists
  import opened Store
  import Session

  /** One call to the adapter, or a record's expiry. */
  datatype Op =
    | Register(u: bytes, c: bytes, version: int64, now: int64)
    | Update(u: bytes, c: bytes, version: int64, now: int64)
    | Unregister(u: bytes, c: bytes, now: int64)
    | Drop(u: bytes, c: bytes)
    | Expire(u: bytes, c: bytes)
    | DropAll(u: bytes)

  ghost function AbsStep(a: Devices, op: Op): Devices {
    if !ValidId(op.u) || (!op.DropAll? && !ValidId(op.c)) then a
    else match op
      case Register(u, c, v, now) => AbsRegister(a, u, c, v, now)
      case Update(u, c, v, now) => AbsUpdate(a, u, c, v, now)
      case Unregister(u, c, _) => AbsUnregister(a, u, c)
      case Drop(u, c) => AbsDrop(a, u, c)
      case Expire(u, c) => AbsDrop(a, u, c)
      case DropAll(u) => a - {u}
  }

  ghost function AbsRun(ops: seq<Op>): Devices {
    if ops == [] then map[] else AbsStep(AbsRun(ops[..|ops| - 1]), ops[|ops| - 1])
  }

  /** The state of one channel from its own history alone: None while it is not
      registered. */
  ghost function LastSlot(ops: seq<Op>, u: bytes, c: bytes): Option<Slot> {
    if ops == [] then None else SlotAfter(LastSlot(ops[..|ops| - 1], u, c), ops[|ops| - 1], u, c)
  }

  ghost function SlotAfter(was: Option<Slot>, op: Op, u: bytes, c: bytes): Option<Slot> {
    if op.u != u || (!op.DropAll? && op.c != c) then was
    else match op
      case DropAll(_) => None
      case Register(_, _, v, now) => Some(Fresh(v, now))
      case Update(_, _, v, now) => Some(if was.None? || was == Some(Empty) then Fresh(v, now) else Pending(AsUint64(v), now))
      case Unregister(_, _, _) => None
      case Drop(_, _) => if was.Some? then Some(Empty) else None
      case Expire(_, _) => if was.Some? then Some(Empty) else None
  }

  lemma LastSlotNext(ops: seq<Op>, op: Op, u: bytes, c: bytes)
    ensures LastSlot(ops + [op], u, c) == SlotAfter(LastSlot(ops, u, c), op, u, c)
  {
    assert (ops + [op])[..|ops|] == ops;
  }

  /** Channels are independent: the abstract store holds for every channel exactly
      what that channel's own history says. */
  lemma {:induction false} ChannelsAreIndependent(ops: seq<Op>, u: bytes, c: bytes)
    requires ValidId(u) && ValidId(c)
    ensures c in Channels(AbsRun(ops), u) <==> LastSlot(ops, u, c).Some?
    ensures c in Channels(AbsRun(ops), u) ==> LastSlot(ops, u, c) == Some(AbsRun(ops)[u][c])
    decreases |ops|
  {
    hide ValidId;
    if ops != [] {
      ChannelsAreIndependent(ops[..|ops| - 1], u, c);
    }
  }

  method Apply(store: GomemcStore, op: Op)
    requires Inv(store.cache)
    modifies store
    ensures Inv(store.cache) && Abs(store.cache) == AbsStep(old(Abs(store.cache)), op)
  {
    hide ValidId, Inv, Abs;
    match op {
      case Register(u, c, v, now) => var err := store.Register(u, c, v, now); IdsChecked(u, c);
      case Update(u, c, v, now) => var err := store.Update(u, c, v, now); IdsChecked(u, c);
      case Unregister(u, c, now) => var err := store.Unregister(u, c, now); IdsChecked(u, c);
      case Drop(u, c) => var err := store.Drop(u, c); IdsChecked(u, c);
      case Expire(u, c) =>
        if ValidId(u) && ValidId(c) {
          store.Expire(u, c);
        }
      case DropAll(u) => var err := store.DropAll(u);
    }
  }

  lemma IdsChecked(u: bytes, c: bytes)
    ensures CheckIds(u, c).None? <==> ValidId(u) && ValidId(c)
  {
  }

  method ApplyAll(store: GomemcStore, ghost before: seq<Op>, ops: seq<Op>)
    requires Inv(store.cache) && Abs(store.cache) == AbsRun(before)
    modifies store
    ensures Inv(store.cache) && Abs(store.cache) == AbsRun(before + ops)
  {
    hide Inv, Abs, AbsStep;
    assert before + ops[..0] == before;
    for k := 0 to |ops|
      invariant Inv(store.cache) && Abs(store.cache) == AbsRun(before + ops[..k])
    {
      var next := before + ops[..k + 1];
      assert next[..|next| - 1] == before + ops[..k];
      Apply(store, ops[k]);
    }
    assert ops[..|ops|] == ops;
  }

  method Fetch(store: GomemcStore, ghost ops: seq<Op>, u: bytes, since: int64, now: int64)
    returns (updates: seq<Notice>, expired: seq<bytes>)
    requires ValidId(u) && Inv(store.cache) && Abs(store.cache) == AbsRun(ops)
    ensures expired == []
    ensures forall i, j :: 0 <= i < j < |updates| ==> Less(updates[i].chid, updates[j].chid)
    ensures forall c, v :: Notice(c, v) in updates <==> ValidId(c) && Due(LastSlot(ops, u, c), since, now, v)
  {
    hide ValidId, Inv, Abs;
    var err;
    err, updates, expired := store.FetchAll(u, since, now);
    ValidHasNoDot(u);
    forall c, v ensures Notice(c, v) in updates <==> ValidId(c) && Due(LastSlot(ops, u, c), since, now, v) {
      if c in Channels(Abs(store.cache), u) {
        ListedAreValid(store.cache, u, c);
      }
      if ValidId(c) {
        ChannelsAreIndependent(ops, u, c);
      }
    }
  }

  /** Any sequence of calls and expiries from an empty store, then a fetch: the
      device is told of exactly the channels whose own history left an update
      pending, in ascending order and once each, with the latest version (the time
      of the fetch for version 0), and never of an expired channel. */
  method RunThenFetch(ops: seq<Op>, u: bytes, since: int64, now: int64)
    returns (updates: seq<Notice>, expired: seq<bytes>)
    requires ValidId(u)
    ensures expired == []
    ensures forall i, j :: 0 <= i < j < |updates| ==> Less(updates[i].chid, updates[j].chid)
    ensures forall c, v :: Notice(c, v) in updates <==> ValidId(c) && Due(LastSlot(ops, u, c), since, now, v)
  {
    hide ValidId, Inv, Abs;
    var store := new GomemcStore();
    EmptyCache();
    ApplyAll(store, [], ops);
    assert [] + ops == ops;
    updates, expired := Fetch(store, ops, u, since, now);
  }

  ghost predicate Due(slot: Option<Slot>, since: int64, now: int64, v: uint64) {
    match slot
    case Some(Pending(version, touched)) => touched >= since && v == if version == 0 then AsUint64(now) else version
    case _ => false
  }

  lemma EmptyCache()
    ensures Abs(map[]) == map[]
  {
  }

  // ---- Acknowledgements ---------------------------------------------------------------

  // The store calls of an Ack that change the store.
  function DropOps(u: bytes, chids: seq<bytes>): (ops: seq<Op>)
    ensures |ops| == |chids|
    ensures forall i :: 0 <= i < |ops| ==> ops[i] == Drop(u, chids[i])
  {
    seq(|chids|, i requires 0 <= i < |chids| => Drop(u, chids[i]))
  }

  // Each drop empties its channel, if it is registered, and no other.
  lemma {:induction false} DropsEmpty(ops: seq<Op>, u: bytes, chids: seq<bytes>, c: bytes)
    ensures var was := LastSlot(ops, u, c);
            LastSlot(ops + DropOps(u, chids), u, c) == if c in chids && was.Some? then Some(Empty) else was
    decreases |chids|
  {
    hide LastSlot;
    if chids == [] {
      assert ops + DropOps(u, chids) == ops;
    } else {
      var front, last := chids[..|chids| - 1], chids[|chids| - 1];
      DropsEmpty(ops, u, front, c);
      LastSlotNext(ops + DropOps(u, front), Drop(u, last), u, c);
      assert ops + DropOps(u, chids) == ops + DropOps(u, front) + [Drop(u, last)];
      assert chids == front + [last];
    }
  }

  // The operations a worker's calls amount to; fetching changes nothing.
  function OpsOf(calls: seq<Session.Call>): seq<Op> {
    if calls == [] then []
    else
      var call, front := calls[|calls| - 1], OpsOf(calls[..|calls| - 1]);
      if call.Drop? then front + [Drop(call.u, call.c)] else front
  }

  lemma {:induction false} OpsOfDrops(u: bytes, chids: seq<bytes>)
    ensures OpsOf(Session.DropCalls(u, chids)) == DropOps(u, chids)
    ensures OpsOf(Session.DropCalls(u, chids) + [Session.FetchAll(u)]) == DropOps(u, chids)
    decreases |chids|
  {
    var calls := Session.DropCalls(u, chids);
    if chids != [] {
      OpsOfDrops(u, chids[..|chids| - 1]);
      assert calls[..|calls| - 1] == Session.DropCalls(u, chids[..|chids| - 1]);
    }
    assert (calls + [Session.FetchAll(u)])[..|calls|] == calls;
  }

  /** An acknowledgement that goes through loses whatever update each channel it names
      held, whatever the versions it names, and changes no other channel. */
  lemma AckDropsAnyVersion(ops: seq<Op>, u: bytes, m: Session.Input, c: bytes)
    requires m.AckMsg? && u != [] && |m.updates| + |m.expired| <= m.drops
    ensures var was := LastSlot(ops, u, c);
            LastSlot(ops + OpsOf(Session.CallsOf(u, m)), u, c) ==
            if c in Session.Channels(m.updates) + m.expired && was.Some? then Some(Empty) else was
  {
    hide LastSlot, OpsOf;
    var chids := Session.Channels(m.updates) + m.expired;
    OpsOfDrops(u, chids);
    DropsEmpty(ops, u, chids, c);
    if chids == [] {
      assert Session.DropCalls(u, chids) == [];
    }
  }

  // ---- Which updates an acknowledgement loses ---------------------------------------------

  /** What a write leaves until the channel is touched again: a version other than 0 is
      pending, whatever was there; version 0 is pending on a record that exists and only
      registers otherwise. */
  lemma {:induction false} LatestIsHeld(ops: seq<Op>, op: Op, later: seq<Op>)
    requires op.Register? || op.Update?
    requires forall k :: 0 <= k < |later| ==> !Touches(later[k], op.u, op.c)
    ensures var was := LastSlot(ops, op.u, op.c);
            LastSlot(ops + [op] + later, op.u, op.c) ==
            if op.version != 0 || (op.Update? && was.Some? && was.value != Empty) then Some(Pending(AsUint64(op.version), op.now))
            else Some(Waiting)
    decreases |later|
  {
    hide LastSlot;
    if later == [] {
      LastSlotNext(ops, op, op.u, op.c);
      assert ops + [op] + later == ops + [op];
    } else {
      var front := later[..|later| - 1];
      LatestIsHeld(ops, op, front);
      LastSlotNext(ops + [op] + front, later[|later| - 1], op.u, op.c);
      assert ops + [op] + later == ops + [op] + front + [later[|later| - 1]];
    }
  }

  /** So a device is told of it exactly if it was written at or after the cutoff, with its
      version, or the time of the fetch for version 0 on a record that existed. */
  lemma LatestIsReported(ops: seq<Op>, op: Op, later: seq<Op>, since: int64, now: int64, w: uint64)
    requires op.Register? || op.Update?
    requires forall k :: 0 <= k < |later| ==> !Touches(later[k], op.u, op.c)
    ensures var was := LastSlot(ops, op.u, op.c);
            Due(LastSlot(ops + [op] + later, op.u, op.c), since, now, w) <==>
            && since <= op.now
            && if op.version != 0 then w == AsUint64(op.version)
               else op.Update? && was.Some? && was.value != Empty && w == AsUint64(now)
  {
    hide LastSlot, AsUint64, Touches;
    LatestIsHeld(ops, op, later);
    ZeroVersion(op.version);
  }

  lemma ZeroVersion(v: int64)
    ensures AsUint64(v) == 0 <==> v == 0
  {
  }

  /** What clears a channel leaves until it is touched again: unregistered and dropped
      devices' channels are gone, acknowledged and expired ones stay and hold nothing. */
  lemma {:induction false} ClearedStays(ops: seq<Op>, op: Op, later: seq<Op>, c: bytes)
    requires Touches(op, op.u, c) && !op.Register? && !op.Update?
    requires forall k :: 0 <= k < |later| ==> !Touches(later[k], op.u, c)
    ensures LastSlot(ops + [op] + later, op.u, c) ==
            if op.Unregister? || op.DropAll? || LastSlot(ops, op.u, c).None? then None else Some(Empty)
    decreases |later|
  {
    hide LastSlot;
    if later == [] {
      LastSlotNext(ops, op, op.u, c);
      assert ops + [op] + later == ops + [op];
    } else {
      var front := later[..|later| - 1];
      ClearedStays(ops, op, front, c);
      LastSlotNext(ops + [op] + front, later[|later| - 1], op.u, c);
      assert ops + [op] + later == ops + [op] + front + [later[|later| - 1]];
    }
  }

  // The operation that set the update a channel holds, by its place in the history.
  ghost function PendingFrom(ops: seq<Op>, u: bytes, c: bytes): (i: Option<nat>)
    ensures i.Some? ==> i.value < |ops|
  {
    if ops == [] then None
    else
      var op, front := ops[|ops| - 1], ops[..|ops| - 1];
      if !Touches(op, u, c) then PendingFrom(front, u, c)
      else if Holds(LastSlot(ops, u, c)) then Some(|ops| - 1)
      else None
  }

  predicate Touches(op: Op, u: bytes, c: bytes) {
    op.u == u && (op.DropAll? || op.c == c)
  }

  predicate Holds(slot: Option<Slot>) {
    slot.Some? && slot.value.Pending?
  }

  /** The update a channel holds is the one that operation wrote: its own version and
      time, still there. */
  lemma {:induction false} PendingFromWrote(ops: seq<Op>, u: bytes, c: bytes)
    ensures Holds(LastSlot(ops, u, c)) <==> PendingFrom(ops, u, c).Some?
    ensures var i := PendingFrom(ops, u, c);
            i.Some? ==>
              && (ops[i.value].Register? || ops[i.value].Update?) && Touches(ops[i.value], u, c)
              && LastSlot(ops, u, c) == Some(Pending(AsUint64(ops[i.value].version), ops[i.value].now))
  {
    if ops != [] {
      PendingFromWrote(ops[..|ops| - 1], u, c);
    }
  }

  // Sets an update: a version other than 0, or version 0 on a record that exists.
  predicate Writes(op: Op, was: Option<Slot>, u: bytes, c: bytes) {
    && Touches(op, u, c)
    && (op.Register? || op.Update?)
    && (op.version != 0 || (op.Update? && was.Some? && was.value != Empty))
  }

  // Takes any update away.
  predicate Clears(op: Op, u: bytes, c: bytes) {
    && Touches(op, u, c)
    && (op.Unregister? || op.Drop? || op.Expire? || op.DropAll? || (op.Register? && op.version == 0))
  }

  // An update written by more[j] that nothing in `more` cleared.
  ghost predicate WrittenSince(before: seq<Op>, more: seq<Op>, u: bytes, c: bytes, j: nat) {
    && j < |more|
    && Writes(more[j], LastSlot(before + more[..j], u, c), u, c)
    && forall k :: j < k < |more| ==> !Clears(more[k], u, c)
  }

  /** The client was told of what a channel held after `before`; `more` happened before
      its acknowledgement arrived. The update that the acknowledgement would lose is one
      the client was never told of. */
  ghost predicate LosesNews(before: seq<Op>, more: seq<Op>, u: bytes, c: bytes) {
    var from := PendingFrom(before + more, u, c);
    from.Some? && from.value >= |before|
  }

  /** Exactly when an acknowledgement is late: something in `more` wrote an update and
      nothing after it cleared the channel. Otherwise it loses nothing but what the
      client was told of. */
  lemma {:induction false} LosesNewsIff(before: seq<Op>, more: seq<Op>, u: bytes, c: bytes)
    ensures LosesNews(before, more, u, c) <==> exists j :: WrittenSince(before, more, u, c, j)
    ensures !LosesNews(before, more, u, c) && Holds(LastSlot(before + more, u, c)) ==>
              LastSlot(before + more, u, c) == LastSlot(before, u, c)
    decreases |more|
  {
    hide WrittenSince;
    var ops := before + more;
    PendingFromWrote(ops, u, c);
    if more == [] {
      assert ops == before;
      NothingWritten(before, u, c);
    } else {
      var front, op := more[..|more| - 1], more[|more| - 1];
      assert ops[..|ops| - 1] == before + front;
      LosesNewsIff(before, front, u, c);
      PendingFromWrote(before + front, u, c);
      WrittenNext(before, front, op, u, c);
      assert front + [op] == more;
    }
  }

  lemma NothingWritten(before: seq<Op>, u: bytes, c: bytes)
    ensures forall j :: !WrittenSince(before, [], u, c, j)
  {
  }

  lemma WrittenNext(before: seq<Op>, front: seq<Op>, op: Op, u: bytes, c: bytes)
    ensures (exists j :: WrittenSince(before, front + [op], u, c, j)) <==>
            Writes(op, LastSlot(before + front, u, c), u, c) ||
            (!Clears(op, u, c) && exists j :: WrittenSince(before, front, u, c, j))
  {
    hide Writes, Clears, LastSlot;
    var more := front + [op];
    forall j: nat | j < |front|
      ensures WrittenSince(before, more, u, c, j) <==> WrittenSince(before, front, u, c, j) && !Clears(op, u, c)
    {
      WrittenEarlier(before, front, op, u, c, j);
    }
    assert more[..|front|] == front;
    assert WrittenSince(before, more, u, c, |front|) <==> Writes(op, LastSlot(before + front, u, c), u, c);
  }

  lemma WrittenEarlier(before: seq<Op>, front: seq<Op>, op: Op, u: bytes, c: bytes, j: nat)
    requires j < |front|
    ensures WrittenSince(before, front + [op], u, c, j) <==> WrittenSince(before, front, u, c, j) && !Clears(op, u, c)
  {
    hide Writes, Clears, LastSlot;
    var more := front + [op];
    assert more[..j] == front[..j] && more[j] == front[j] && more[|front|] == op;
    if WrittenSince(before, more, u, c, j) {
      forall k | j < k < |front| ensures !Clears(front[k], u, c) {
        assert more[k] == front[k];
      }
    }
  }

  /** An update that was lost stays lost: until the next Register or Update nothing is
      reported for the channel. */
  lemma {:induction false} LostForGood(ops: seq<Op>, later: seq<Op>, u: bytes, c: bytes)
    requires !Holds(LastSlot(ops, u, c))
    requires forall k :: 0 <= k < |later| && Touches(later[k], u, c) ==> !later[k].Register? && !later[k].Update?
    ensures !Holds(LastSlot(ops + later, u, c))
    decreases |later|
  {
    var all := ops + later;
    if later == [] {
      assert all == ops;
    } else {
      assert all[..|all| - 1] == ops + later[..|later| - 1];
      LostForGood(ops, later[..|later| - 1], u, c);
    }
  }

  /** An old acknowledgement does drop a newer update. The client registers, is sent v1
      and acknowledges v1; v2 arrives in between and is never reported. */
  lemma NewerUpdateLost(u: bytes, c: bytes, v1: int64, v2: int64, t0: int64, t1: int64, t2: int64, later: seq<Op>)
    requires v1 != 0 && v2 != 0 && u != []
    requires forall k :: 0 <= k < |later| && Touches(later[k], u, c) ==> !later[k].Register? && !later[k].Update?
    ensures var before, more := [Register(u, c, 0, t0), Update(u, c, v1, t1)], [Update(u, c, v2, t2)];
            var ack := Session.AckMsg([Session.Acked(c, AsUint64(v1))], [], 1, true);
            && Due(LastSlot(before, u, c), t1, t1, AsUint64(v1))
            && Due(LastSlot(before + more, u, c), t2, t2, AsUint64(v2))
            && OpsOf(Session.CallsOf(u, ack)) == [Drop(u, c)]
            && LosesNews(before, more, u, c)
            && forall since, now, v :: !Due(LastSlot(before + more + [Drop(u, c)] + later, u, c), since, now, v)
  {
    hide LastSlot, PendingFrom, OpsOf, Session.CallsOf, AsUint64, SlotAfter;
    var before, update := [Register(u, c, 0, t0), Update(u, c, v1, t1)], Update(u, c, v2, t2);
    TwoUpdates(u, c, v1, v2, t0, t1, t2);
    PendingFromLast(before, update, u, c);
    LastSlotNext(before + [update], Drop(u, c), u, c);
    DropHoldsNothing(LastSlot(before + [update], u, c), u, c);
    LostForGood(before + [update] + [Drop(u, c)], later, u, c);
    AckOfOne(u, c, AsUint64(v1));
  }

  lemma TwoUpdates(u: bytes, c: bytes, v1: int64, v2: int64, t0: int64, t1: int64, t2: int64)
    requires v1 != 0 && v2 != 0
    ensures var before, update := [Register(u, c, 0, t0), Update(u, c, v1, t1)], Update(u, c, v2, t2);
            && AsUint64(v1) != 0 && AsUint64(v2) != 0
            && LastSlot(before, u, c) == Some(Pending(AsUint64(v1), t1))
            && LastSlot(before + [update], u, c) == Some(Pending(AsUint64(v2), t2))
  {
    hide LastSlot;
    var register, first, second := Register(u, c, 0, t0), Update(u, c, v1, t1), Update(u, c, v2, t2);
    assert [] + [register] == [register] && [register] + [first] == [register, first];
    LastSlotNext([], register, u, c);
    LastSlotNext([register], first, u, c);
    LastSlotNext([register, first], second, u, c);
  }

  lemma DropHoldsNothing(was: Option<Slot>, u: bytes, c: bytes)
    ensures !Holds(SlotAfter(was, Drop(u, c), u, c))
  {
  }

  lemma AckOfOne(u: bytes, c: bytes, version: uint64)
    requires u != []
    ensures OpsOf(Session.CallsOf(u, Session.AckMsg([Session.Acked(c, version)], [], 1, true))) == [Drop(u, c)]
  {
    hide OpsOf;
    assert Session.Channels([Session.Acked(c, version)]) + [] == [c];
    OpsOfDrops(u, [c]);
  }

  lemma PendingFromLast(ops: seq<Op>, op: Op, u: bytes, c: bytes)
    requires Touches(op, u, c) && Holds(LastSlot(ops + [op], u, c))
    ensures PendingFrom(ops + [op], u, c) == Some(|ops|)
  {
  }

  // ---- Store and session together ------------------------------------------------------------

  /** A device is sent its updates after `before`, `more` happens, and then its worker
      handles an acknowledgement of exactly what was sent, versions included. From then
      on a fetch reports what the histories left pending except on every channel that
      was acknowledged, where even a newer update is gone. */
  method FetchThenAck(before: seq<Op>, more: seq<Op>, u: bytes, since: int64, now: int64)
    returns (told: seq<Notice>, after: seq<Notice>)
    requires ValidId(u)
    ensures forall c, v :: Notice(c, v) in told <==> ValidId(c) && Due(LastSlot(before, u, c), since, now, v)
    ensures forall c, v :: Notice(c, v) in after <==>
              && ValidId(c) && Due(LastSlot(before + more, u, c), since, now, v)
              && forall w :: Notice(c, w) !in told
  {
    hide Inv, Abs, ValidId;
    var store := new GomemcStore();
    EmptyCache();
    ApplyAll(store, [], before);
    assert [] + before == before;
    var expired;
    told, expired := Fetch(store, before, u, since, now);
    ApplyAll(store, before, more);
    var drops := Acknowledge(u, told);
    ghost var chids := ChannelsOf(told);
    ApplyAll(store, before + more, drops);
    after, expired := Fetch(store, before + more + drops, u, since, now);
    forall c ensures var was := LastSlot(before + more, u, c);
                     LastSlot(before + more + drops, u, c) == if c in chids && was.Some? then Some(Empty) else was
    {
      DropsEmpty(before + more, u, chids, c);
    }
    NamedChannels(told);
  }

  ghost function ChannelsOf(told: seq<Notice>): (chids: seq<bytes>)
    ensures |chids| == |told|
    ensures forall i :: 0 <= i < |told| ==> chids[i] == told[i].chid
  {
    seq(|told|, i requires 0 <= i < |told| => told[i].chid)
  }

  lemma NamedChannels(told: seq<Notice>)
    ensures forall c :: c in ChannelsOf(told) <==> exists v :: Notice(c, v) in told
  {
    forall c ensures c in ChannelsOf(told) <==> exists v :: Notice(c, v) in told {
      if c in ChannelsOf(told) {
        var i :| 0 <= i < |told| && ChannelsOf(told)[i] == c;
        assert Notice(c, told[i].version) in told;
      }
      if v :| Notice(c, v) in told {
        var i :| 0 <= i < |told| && told[i] == Notice(c, v);
        assert ChannelsOf(told)[i] == c;
      }
    }
  }

  // The worker's part: a handshake for the device, then the acknowledgement, whose
  // calls all succeed because the channels it was sent are valid.
  method Acknowledge(u: bytes, told: seq<Notice>) returns (drops: seq<Op>)
    requires ValidId(u)
    ensures drops == DropOps(u, ChannelsOf(told))
  {
    hide ValidId;
    ValidHasNoDot(u);
    var worker := new Session.Worker(0);
    var err := worker.Hello(Session.HelloMsg(Session.Hello(u, Some(0)), Session.Answers(true, true, None), false, true, true));
    var made := |worker.calls|;
    ghost var calls := worker.calls;
    var acked := seq(|told|, i requires 0 <= i < |told| => Session.Acked(told[i].chid, told[i].version));
    err := worker.Ack(Session.AckMsg(acked, [], |told|, true));
    assert Session.Channels(acked) + [] == ChannelsOf(told);
    OpsOfDrops(u, ChannelsOf(told));
    assert worker.calls[made..] == worker.calls[|calls|..];
    drops := OpsOf(worker.calls[made..]);
  }
}

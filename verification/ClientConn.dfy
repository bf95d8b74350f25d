/** The test client's send loop (client/conn.go): a table of pending requests, one
    slot per synchronous type and one per asynchronous type and id, fed by requests
    and replies until the connection is signalled to close. */
module ClientConn {
  import opened Prelude

  datatype PacketType = Helo | Register | Unregister | Ack | Updates | Purge | Ping

  // Packet ids: text for devices and channels, numbers for the fixed ones.
  datatype PacketId = Text(text: string) | Number(n: nat)

  /** A request as the loop sees it. `handle` stands for its two channels. */
  datatype Request = Request(handle: nat, kind: PacketType, sync: bool, id: Option<PacketId>, canReply: bool)

  datatype Reply = Reply(kind: PacketType, sync: bool, id: Option<PacketId>)

  datatype Error = ErrMismatchedIds | ErrDuplicateRequest | ErrInvalidState | ErrNoId | SendFailed | Eof

  /** What is done to a request's channels. */
  datatype Event =
    | Replied(handle: nat, reply: Reply)
    | Errored(handle: nat, err: Error)
    | Closed(handle: nat)

  // ---- The packets the client sends (client/packet.go) -------------------------------

  datatype ClientPacket =
    | ClientHelo(deviceId: string)
    | ClientRegister(channelId: string)
    | ClientUnregister(channelId: string, wantsReply: bool)
    | ClientPing(wantsReply: bool)
    | ClientPurge(wantsReply: bool)
    | ClientAck(wantsReply: bool)

  function AsRequest(p: ClientPacket, handle: nat): Request {
    match p
    case ClientHelo(d) => Request(handle, Helo, true, Some(Text(d)), true)
    case ClientRegister(c) => Request(handle, Register, false, Some(Text(c)), true)
    case ClientUnregister(c, w) => Request(handle, Unregister, false, Some(Text(c)), w)
    case ClientPing(w) => Request(handle, Ping, true, Some(Number(3)), w)
    case ClientPurge(w) => Request(handle, Purge, true, Some(Number(2)), w)
    case ClientAck(w) => Request(handle, Ack, false, Some(Number(1)), w)
  }

  // ---- What may happen to a request ----------------------------------------------------

  ghost function Trace(log: seq<Event>, h: nat): seq<Event> {
    if log == [] then []
    else
      var last, before := log[|log| - 1], Trace(log[..|log| - 1], h);
      if last.handle == h then before + [last] else before
  }

  lemma TraceAppend(log: seq<Event>, e: Event, h: nat)
    ensures Trace(log + [e], h) == if e.handle == h then Trace(log, h) + [e] else Trace(log, h)
  {
    assert (log + [e])[..|log|] == log;
  }

  // Closed once, last, after at most one reply or error.
  ghost predicate Finished(trace: seq<Event>, h: nat) {
    || trace == [Closed(h)]
    || (|trace| == 2 && trace[1] == Closed(h) && (trace[0].Replied? || trace[0].Errored?))
  }

  // How a request ends: an optional reply or error, then the close.
  function Ending(h: nat, e: Option<Event>): seq<Event> {
    (if e.Some? then [e.value] else []) + [Closed(h)]
  }

  type Requests = map<PacketType, Request>
  type Outboxes = map<PacketType, map<PacketId, Request>>

  // A request waits in the slot given by its own type, and id when asynchronous.
  ghost predicate Pending(requests: Requests, outboxes: Outboxes, r: Request) {
    if r.sync then r.kind in requests && requests[r.kind] == r
    else r.id.Some? && r.kind in outboxes && r.id.value in outboxes[r.kind] && outboxes[r.kind][r.id.value] == r
  }

  // The request waiting where a packet of this type and id belongs.
  ghost function Occupant(requests: Requests, outboxes: Outboxes, kind: PacketType, sync: bool, id: Option<PacketId>): Option<Request> {
    if id.None? then None
    else if sync then if kind in requests then Some(requests[kind]) else None
    else if kind in outboxes && id.value in outboxes[kind] then Some(outboxes[kind][id.value])
    else None
  }

  // The error a request that is not kept ends with: a request no reply is expected for
  // fails only if it cannot be sent, and a repeated handshake or ping ends quietly.
  ghost function Refusal(requests: Requests, outboxes: Outboxes, r: Request, sent: bool): Option<Event> {
    var there := Occupant(requests, outboxes, r.kind, r.sync, r.id);
    if r.canReply && r.id.None? then Some(Errored(r.handle, ErrNoId))
    else if r.canReply && there.Some? then
      if !r.sync then Some(Errored(r.handle, ErrDuplicateRequest))
      else if there.value.id != r.id then Some(Errored(r.handle, ErrMismatchedIds))
      else None
    else if !sent then Some(Errored(r.handle, SendFailed))
    else None
  }

  ghost predicate GoodSlots(requests: Requests, outboxes: Outboxes, accepted: map<nat, Request>) {
    && (forall t :: t in requests ==> GoodSync(requests, accepted, t))
    && (forall t, i :: t in outboxes && i in outboxes[t] ==> GoodAsync(outboxes, accepted, t, i))
  }

  ghost predicate GoodSync(requests: Requests, accepted: map<nat, Request>, t: PacketType)
    requires t in requests
  {
    var r := requests[t];
    r.kind == t && r.sync && r.handle in accepted && accepted[r.handle] == r
  }

  ghost predicate GoodAsync(outboxes: Outboxes, accepted: map<nat, Request>, t: PacketType, i: PacketId)
    requires t in outboxes && i in outboxes[t]
  {
    var r := outboxes[t][i];
    r.kind == t && !r.sync && r.id == Some(i) && r.handle in accepted && accepted[r.handle] == r
  }

  // A reply goes to a request of its type, and of its id when asynchronous.
  ghost predicate Answers(accepted: map<nat, Request>, e: Event) {
    e.Replied? ==>
      && e.handle in accepted && e.reply.kind == accepted[e.handle].kind && e.reply.sync == accepted[e.handle].sync
      && (!e.reply.sync ==> e.reply.id == accepted[e.handle].id)
  }

  ghost predicate GoodHistory(requests: Requests, outboxes: Outboxes, accepted: map<nat, Request>, log: seq<Event>) {
    && (forall h :: h in accepted ==> accepted[h].handle == h)
    && (forall h :: h !in accepted ==> Trace(log, h) == [])
    && (forall h :: h in accepted ==>
          if Pending(requests, outboxes, accepted[h]) then Trace(log, h) == [] else Finished(Trace(log, h), h))
    && (forall i :: 0 <= i < |log| ==> Answers(accepted, log[i]))
  }

  datatype Input = NewRequest(request: Request, sent: bool) | NewReply(reply: Reply) | Signal

  class SendLoop {
    var requests: Requests
    var outboxes: Outboxes
    var log: seq<Event>
    ghost var accepted: map<nat, Request>

    constructor ()
      ensures Valid() && accepted == map[] && log == []
    {
      requests, outboxes, log, accepted := map[], map[], [], map[];
    }

    ghost predicate Valid()
      reads this
    {
      GoodSlots(requests, outboxes, accepted) && GoodHistory(requests, outboxes, accepted, log)
    }

    // Ends a request that is not, or no longer, in the table.
    method Finish(r: Request, e: Option<Event>)
      requires GoodSlots(requests, outboxes, accepted)
      requires r.handle in accepted && accepted[r.handle] == r && !Pending(requests, outboxes, r)
      requires HistoryBesides(requests, outboxes, accepted, log, r.handle) && Trace(log, r.handle) == []
      requires e.Some? ==> e.value.handle == r.handle && !e.value.Closed? && Answers(accepted, e.value)
      modifies this`log
      ensures Valid()
      ensures log == old(log) + Ending(r.handle, e)
    {
      FinishKeeps(requests, outboxes, accepted, log, r, e);
      log := log + Ending(r.handle, e);
    }

    method ProcessRequest(r: Request, sent: bool)
      requires Valid() && r.handle !in accepted
      modifies this
      ensures Valid() && accepted == old(accepted)[r.handle := r]
      ensures Pending(requests, outboxes, r) <==> sent && r.canReply && r.id.Some? && old(Occupant(requests, outboxes, r.kind, r.sync, r.id)).None?
      ensures Pending(requests, outboxes, r) ==> log == old(log)
      ensures !Pending(requests, outboxes, r) ==>
                log == old(log) + Ending(r.handle, old(Refusal(requests, outboxes, r, sent)))
      ensures forall q :: q in old(accepted).Values ==>
                (Pending(requests, outboxes, q) <==> old(Pending(requests, outboxes, q)))
    {
      accepted := accepted[r.handle := r];
      AcceptKeeps(requests, outboxes, old(accepted), accepted, r, log);
      if r.canReply {
        if r.id.None? {
          Finish(r, Some(Errored(r.handle, ErrNoId)));
          return;
        }
        if r.sync && r.kind in requests {
          var mismatch := requests[r.kind].id != r.id;
          Finish(r, if mismatch then Some(Errored(r.handle, ErrMismatchedIds)) else None);
          return;
        }
        if !r.sync && r.kind in outboxes && r.id.value in outboxes[r.kind] {
          Finish(r, Some(Errored(r.handle, ErrDuplicateRequest)));
          return;
        }
      }
      if !sent {
        Finish(r, Some(Errored(r.handle, SendFailed)));
        return;
      }
      if !r.canReply {
        Finish(r, None);
        return;
      }
      if r.sync {
        requests := requests[r.kind := r];
      } else {
        var outbox := if r.kind in outboxes then outboxes[r.kind] else map[];
        outboxes := outboxes[r.kind := outbox[r.id.value := r]];
      }
      StoreKeeps(old(requests), old(outboxes), requests, outboxes, accepted, r, log);
    }

    method ProcessReply(reply: Reply) returns (err: Option<Error>)
      requires Valid()
      modifies this`requests, this`outboxes, this`log
      ensures Valid()
      ensures err.None? <==> reply.id.Some? && old(Occupant(requests, outboxes, reply.kind, reply.sync, reply.id)).Some?
      ensures err.Some? ==> requests == old(requests) && outboxes == old(outboxes) && log == old(log)
      ensures err.None? ==>
                var h := old(Occupant(requests, outboxes, reply.kind, reply.sync, reply.id)).value.handle;
                log == old(log) + [Replied(h, reply), Closed(h)]
    {
      if reply.id.None? {
        return Some(ErrNoId);
      }
      if reply.sync {
        if reply.kind !in requests {
          return Some(ErrInvalidState);
        }
        var r := requests[reply.kind];
        assert GoodSync(requests, accepted, reply.kind);
        requests := requests - {reply.kind};
        TakeKeeps(old(requests), outboxes, requests, outboxes, accepted, r, log);
        Finish(r, Some(Replied(r.handle, reply)));
        return None;
      }
      if reply.kind !in outboxes || reply.id.value !in outboxes[reply.kind] {
        return Some(ErrInvalidState);
      }
      var r := outboxes[reply.kind][reply.id.value];
      assert GoodAsync(outboxes, accepted, reply.kind, reply.id.value);
      outboxes := outboxes[reply.kind := outboxes[reply.kind] - {reply.id.value}];
      TakeKeeps(requests, old(outboxes), requests, outboxes, accepted, r, log);
      Finish(r, Some(Replied(r.handle, reply)));
      return None;
    }

    // Unblocks one pending request.
    method Cancel(r: Request)
      requires GoodSlots(requests, outboxes, accepted)
      requires r.handle in accepted && accepted[r.handle] == r && !Pending(requests, outboxes, r)
      requires HistoryBesides(requests, outboxes, accepted, log, r.handle) && Trace(log, r.handle) == []
      modifies this`log
      ensures Valid() && log == old(log) + Ending(r.handle, Some(Errored(r.handle, Eof)))
    {
      Finish(r, Some(Errored(r.handle, Eof)));
    }

    /** Every pending request gets an end-of-file error and is closed; nothing else
        happens to any other. */
    method CancelAll()
      requires Valid()
      modifies this`requests, this`outboxes, this`log
      ensures Valid() && requests == map[] && outboxes == map[]
      ensures forall h :: h in accepted ==>
                Trace(log, h) == if old(Pending(requests, outboxes, accepted[h])) then Ending(h, Some(Errored(h, Eof)))
                                 else Trace(old(log), h)
    {
      hide GoodSlots, GoodHistory, Unblocked;
      ghost var r0, o0, l0 := requests, outboxes, log;
      NothingUnblocked(r0, o0, l0, accepted);
      while requests.Keys != {}
        invariant Valid() && Unblocked(r0, o0, l0, requests, outboxes, log, accepted)
        decreases |requests|
      {
        ghost var r1, l1 := requests, log;
        CancelSync();
        UnblockedAgain(r0, o0, l0, r1, outboxes, l1, requests, outboxes, log, accepted);
      }
      while outboxes.Keys != {}
        invariant Valid() && requests == map[] && Unblocked(r0, o0, l0, requests, outboxes, log, accepted)
        decreases |outboxes|
      {
        ghost var o1, l1 := outboxes, log;
        CancelOutbox();
        UnblockedAgain(r0, o0, l0, requests, o1, l1, requests, outboxes, log, accepted);
      }
      NonePending(r0, o0, l0, requests, outboxes, log, accepted);
    }

    method CancelSync()
      requires Valid() && requests.Keys != {}
      modifies this`requests, this`log
      ensures Valid() && |requests| < |old(requests)|
      ensures Unblocked(old(requests), outboxes, old(log), requests, outboxes, log, accepted)
    {
      hide Pending, GoodHistory, HistoryBesides, Trace, Unblocked;
      var t :| t in requests.Keys;
      var r := requests[t];
      assert GoodSync(requests, accepted, t);
      SlotIsPending(requests, outboxes, accepted, r);
      requests := requests - {t};
      assert old(requests).Keys == requests.Keys + {t};
      TakeKeeps(old(requests), outboxes, requests, outboxes, accepted, r, log);
      OneUnblocked(old(requests), outboxes, old(log), requests, outboxes, accepted, r);
      Cancel(r);
    }

    // The source unlists the outbox before emptying it; nothing looks in between.
    method CancelOutbox()
      requires Valid() && outboxes.Keys != {}
      modifies this`outboxes, this`log
      ensures Valid() && |outboxes| < |old(outboxes)|
      ensures Unblocked(requests, old(outboxes), old(log), requests, outboxes, log, accepted)
    {
      hide GoodSlots, GoodHistory, Unblocked;
      var t :| t in outboxes.Keys;
      NothingUnblocked(requests, outboxes, log, accepted);
      while outboxes[t].Keys != {}
        invariant t in outboxes && |outboxes| == |old(outboxes)| && Valid()
        invariant Unblocked(requests, old(outboxes), old(log), requests, outboxes, log, accepted)
        decreases |outboxes[t]|
      {
        ghost var o1, l1 := outboxes, log;
        CancelOne(t);
        UnblockedAgain(requests, old(outboxes), old(log), requests, o1, l1, requests, outboxes, log, accepted);
      }
      DropEmpty(requests, outboxes, accepted, log, t);
      EmptyUnblocks(requests, outboxes, accepted, log, t);
      UnblockedAgain(requests, old(outboxes), old(log), requests, outboxes, log, requests, outboxes - {t}, log, accepted);
      assert outboxes.Keys == (outboxes - {t}).Keys + {t};
      outboxes := outboxes - {t};
    }

    method CancelOne(t: PacketType)
      requires Valid() && t in outboxes && outboxes[t].Keys != {}
      modifies this`outboxes, this`log
      ensures Valid() && t in outboxes && |outboxes| == |old(outboxes)| && |outboxes[t]| < |old(outboxes)[t]|
      ensures Unblocked(requests, old(outboxes), old(log), requests, outboxes, log, accepted)
    {
      hide Pending, GoodHistory, HistoryBesides, Trace, Unblocked;
      var i :| i in outboxes[t].Keys;
      var r := outboxes[t][i];
      assert GoodAsync(outboxes, accepted, t, i);
      SlotIsPending(requests, outboxes, accepted, r);
      var rest := outboxes[t] - {i};
      assert outboxes[t].Keys == rest.Keys + {i};
      outboxes := outboxes[t := rest];
      assert outboxes.Keys == old(outboxes).Keys;
      TakeKeeps(requests, old(outboxes), requests, outboxes, accepted, r, log);
      OneUnblocked(requests, old(outboxes), old(log), requests, outboxes, accepted, r);
      Cancel(r);
    }

    /** The whole loop: every accepted request is finished when it exits, closed exactly
        once and last, with at most one reply or error before, and every reply went to a
        request of its type (and id, when asynchronous). */
    method Send(inputs: seq<Input>) returns (taken: nat)
      requires Valid() && accepted == map[]
      requires forall i, j :: 0 <= i < j < |inputs| && inputs[i].NewRequest? && inputs[j].NewRequest? ==>
                 inputs[i].request.handle != inputs[j].request.handle
      modifies this
      ensures taken <= |inputs| && (taken < |inputs| ==> taken > 0 && !inputs[taken - 1].NewRequest?)
      ensures Taken(inputs, taken, accepted)
      ensures requests == map[] && outboxes == map[]
      ensures forall h :: h in accepted ==> Finished(Trace(log, h), h)
      ensures forall h :: h !in accepted ==> Trace(log, h) == []
      ensures forall i :: 0 <= i < |log| ==> Answers(accepted, log[i])
    {
      hide GoodSlots, GoodHistory, Taken, Pending, Trace, Finished, Answers, Occupant, Refusal;
      taken := 0;
      var ok := true;
      NoneTaken(inputs, accepted);
      while ok && taken < |inputs|
        invariant Valid() && taken <= |inputs| && Taken(inputs, taken, accepted)
        invariant !ok ==> taken > 0 && !inputs[taken - 1].NewRequest?
        decreases |inputs| - taken
      {
        TakeNext(inputs, taken, accepted);
        match inputs[taken] {
          case Signal => ok := false;
          case NewRequest(r, sent) => ProcessRequest(r, sent);
          case NewReply(reply) =>
            var err := ProcessReply(reply);
            ok := err.None?;
        }
        taken := taken + 1;
      }
      CancelAll();
      AllFinished(requests, outboxes, accepted, log);
    }
  }

  lemma NoneTaken(inputs: seq<Input>, accepted: map<nat, Request>)
    requires accepted == map[]
    ensures Taken(inputs, 0, accepted)
  {
  }

  lemma TakeNext(inputs: seq<Input>, n: nat, accepted: map<nat, Request>)
    requires n < |inputs| && Taken(inputs, n, accepted)
    requires forall i, j :: 0 <= i < j < |inputs| && inputs[i].NewRequest? && inputs[j].NewRequest? ==>
               inputs[i].request.handle != inputs[j].request.handle
    ensures if inputs[n].NewRequest? then
              var r := inputs[n].request;
              r.handle !in accepted && Taken(inputs, n + 1, accepted[r.handle := r])
            else Taken(inputs, n + 1, accepted)
  {
  }

  lemma AllFinished(requests: Requests, outboxes: Outboxes, accepted: map<nat, Request>, log: seq<Event>)
    requires GoodHistory(requests, outboxes, accepted, log) && requests == map[] && outboxes == map[]
    ensures forall h :: h in accepted ==> Finished(Trace(log, h), h)
    ensures forall h :: h !in accepted ==> Trace(log, h) == []
    ensures forall i :: 0 <= i < |log| ==> Answers(accepted, log[i])
  {
    hide Trace, Finished, Answers;
  }

  // The requests accepted are those among the first n inputs.
  ghost predicate Taken(inputs: seq<Input>, n: nat, accepted: map<nat, Request>)
    requires n <= |inputs|
  {
    && (forall i :: 0 <= i < n && inputs[i].NewRequest? ==>
          inputs[i].request.handle in accepted && accepted[inputs[i].request.handle] == inputs[i].request)
    && (forall h :: h in accepted ==> exists i :: 0 <= i < n && inputs[i].NewRequest? && inputs[i].request.handle == h)
  }

  /** Handshakes, pings and purges are synchronous, everything else is not; acks, purges
      and pings have the ids 1, 2 and 3; only handshakes and registrations always expect
      a reply. */
  lemma PacketKinds(p: ClientPacket, h: nat)
    ensures var r := AsRequest(p, h);
            && r.handle == h
            && (r.sync <==> p.ClientHelo? || p.ClientPing? || p.ClientPurge?)
            && (p.ClientHelo? <==> r.kind == Helo) && (p.ClientRegister? <==> r.kind == Register)
            && (p.ClientUnregister? <==> r.kind == Unregister) && (p.ClientPing? <==> r.kind == Ping)
            && (p.ClientPurge? <==> r.kind == Purge) && (p.ClientAck? <==> r.kind == Ack)
            && (r.id == Some(Number(1)) <==> p.ClientAck?) && (r.id == Some(Number(2)) <==> p.ClientPurge?)
            && (r.id == Some(Number(3)) <==> p.ClientPing?)
            && (p.ClientHelo? ==> r.id == Some(Text(p.deviceId)))
            && (p.ClientRegister? || p.ClientUnregister? ==> r.id == Some(Text(p.channelId)))
            && (r.canReply <==> p.ClientHelo? || p.ClientRegister? || p.wantsReply)
  {
  }

  /** Which error a refused request ends with, and exactly when. */
  lemma RefusalIff(requests: Requests, outboxes: Outboxes, r: Request, sent: bool)
    ensures var f, there := Refusal(requests, outboxes, r, sent), Occupant(requests, outboxes, r.kind, r.sync, r.id);
            && (f == Some(Errored(r.handle, ErrNoId)) <==> r.canReply && r.id.None?)
            && (f == Some(Errored(r.handle, ErrMismatchedIds)) <==> r.canReply && r.sync && there.Some? && there.value.id != r.id)
            && (f == Some(Errored(r.handle, ErrDuplicateRequest)) <==> r.canReply && !r.sync && there.Some?)
            && (f == Some(Errored(r.handle, SendFailed)) <==> !sent && (r.canReply ==> r.id.Some? && there.None?))
            && (f.Some? ==> f.value.Errored? && f.value.handle == r.handle)
  {
  }

  /** The slot a packet belongs to holds a pending request of its kind, and of its id when
      asynchronous; and every pending request is in the slot of its own kind and id. */
  lemma OccupantIsPending(requests: Requests, outboxes: Outboxes, accepted: map<nat, Request>,
                          kind: PacketType, sync: bool, id: Option<PacketId>, r: Request)
    requires GoodSlots(requests, outboxes, accepted) && id.Some?
    ensures Occupant(requests, outboxes, kind, sync, id) == Some(r) <==>
            Pending(requests, outboxes, r) && r.kind == kind && r.sync == sync && (!sync ==> r.id == id)
  {
    if sync && kind in requests {
      assert GoodSync(requests, accepted, kind);
    }
    if !sync && kind in outboxes && id.value in outboxes[kind] {
      assert GoodAsync(outboxes, accepted, kind, id.value);
    }
  }

  /** Among the packets the client really sends, every one that expects a reply has an
      id, and only two handshakes with different device ids can clash: pings and purges
      have a fixed id each, so repeating one ends quietly. */
  lemma OnlyHandshakesMismatch(p: ClientPacket, q: ClientPacket, h: nat, g: nat, outboxes: Outboxes, sent: bool)
    requires var r := AsRequest(q, g); r.sync && r.canReply
    ensures var r, pending := AsRequest(p, h), AsRequest(q, g);
            var refusal := Refusal(map[pending.kind := pending], outboxes, r, sent);
            && refusal != Some(Errored(h, ErrNoId))
            && (refusal == Some(Errored(h, ErrMismatchedIds)) <==>
                  p.ClientHelo? && q.ClientHelo? && p.deviceId != q.deviceId)
  {
  }

  // ---- Steps of the proof ----------------------------------------------------------------

  // Between two moments, every request that stopped being pending got an end-of-file
  // error and was closed, and nothing happened to any other.
  ghost predicate Unblocked(requests: Requests, outboxes: Outboxes, log: seq<Event>,
                            requests': Requests, outboxes': Outboxes, log': seq<Event>, accepted: map<nat, Request>)
  {
    forall h :: h in accepted ==> UnblockedOne(requests, outboxes, log, requests', outboxes', log', accepted, h)
  }

  ghost predicate UnblockedOne(requests: Requests, outboxes: Outboxes, log: seq<Event>,
                               requests': Requests, outboxes': Outboxes, log': seq<Event>, accepted: map<nat, Request>, h: nat)
    requires h in accepted
  {
    var before, after := Pending(requests, outboxes, accepted[h]), Pending(requests', outboxes', accepted[h]);
    && (after ==> before)
    && Trace(log', h) == if before && !after then Trace(log, h) + Ending(h, Some(Errored(h, Eof))) else Trace(log, h)
  }

  lemma NothingUnblocked(requests: Requests, outboxes: Outboxes, log: seq<Event>, accepted: map<nat, Request>)
    ensures Unblocked(requests, outboxes, log, requests, outboxes, log, accepted)
  {
  }

  lemma UnblockedAgain(r0: Requests, o0: Outboxes, l0: seq<Event>, r1: Requests, o1: Outboxes, l1: seq<Event>,
                       r2: Requests, o2: Outboxes, l2: seq<Event>, accepted: map<nat, Request>)
    requires Unblocked(r0, o0, l0, r1, o1, l1, accepted) && Unblocked(r1, o1, l1, r2, o2, l2, accepted)
    ensures Unblocked(r0, o0, l0, r2, o2, l2, accepted)
  {
    hide Pending, Trace, Ending;
    forall h | h in accepted ensures UnblockedOne(r0, o0, l0, r2, o2, l2, accepted, h) {
      assert UnblockedOne(r0, o0, l0, r1, o1, l1, accepted, h) && UnblockedOne(r1, o1, l1, r2, o2, l2, accepted, h);
    }
  }

  lemma OneUnblocked(requests: Requests, outboxes: Outboxes, log: seq<Event>, requests': Requests, outboxes': Outboxes,
                     accepted: map<nat, Request>, r: Request)
    requires Took(requests, outboxes, requests', outboxes', r) && r.handle in accepted && accepted[r.handle] == r
    requires HistoryBesides(requests', outboxes', accepted, log, r.handle)
    ensures Unblocked(requests, outboxes, log, requests', outboxes', log + Ending(r.handle, Some(Errored(r.handle, Eof))), accepted)
  {
    TakeKeepsPending(requests, outboxes, requests', outboxes', r);
    EndingTraces(log, r.handle, Some(Errored(r.handle, Eof)));
    hide Pending, Trace, Ending, Finished, Answers;
  }

  lemma EmptyUnblocks(requests: Requests, outboxes: Outboxes, accepted: map<nat, Request>, log: seq<Event>, t: PacketType)
    requires t in outboxes && outboxes[t].Keys == {}
    ensures Unblocked(requests, outboxes, log, requests, outboxes - {t}, log, accepted)
  {
    hide Trace, Ending;
    forall q ensures Pending(requests, outboxes - {t}, q) <==> Pending(requests, outboxes, q) {
    }
  }

  lemma NonePending(requests: Requests, outboxes: Outboxes, log: seq<Event>,
                    requests': Requests, outboxes': Outboxes, log': seq<Event>, accepted: map<nat, Request>)
    requires GoodHistory(requests, outboxes, accepted, log) && requests' == map[] && outboxes' == map[]
    requires Unblocked(requests, outboxes, log, requests', outboxes', log', accepted)
    ensures forall h :: h in accepted ==>
              Trace(log', h) == if Pending(requests, outboxes, accepted[h]) then Ending(h, Some(Errored(h, Eof))) else Trace(log, h)
  {
    hide Trace, Finished, Answers;
    forall h | h in accepted
      ensures Trace(log', h) == if Pending(requests, outboxes, accepted[h]) then Ending(h, Some(Errored(h, Eof))) else Trace(log, h)
    {
      assert UnblockedOne(requests, outboxes, log, requests', outboxes', log', accepted, h);
    }
  }

  // The history is in order for every request but one.
  ghost predicate HistoryBesides(requests: Requests, outboxes: Outboxes, accepted: map<nat, Request>, log: seq<Event>, x: nat) {
    && (forall h :: h in accepted ==> accepted[h].handle == h)
    && (forall h :: h !in accepted ==> Trace(log, h) == [])
    && (forall h :: h in accepted && h != x ==>
          if Pending(requests, outboxes, accepted[h]) then Trace(log, h) == [] else Finished(Trace(log, h), h))
    && (forall i :: 0 <= i < |log| ==> Answers(accepted, log[i]))
  }

  lemma TraceGrows(log: seq<Event>, e: Event)
    ensures forall h :: Trace(log + [e], h) == if e.handle == h then Trace(log, h) + [e] else Trace(log, h)
  {
    forall h ensures Trace(log + [e], h) == if e.handle == h then Trace(log, h) + [e] else Trace(log, h) {
      TraceAppend(log, e, h);
    }
  }

  lemma SlotIsPending(requests: Requests, outboxes: Outboxes, accepted: map<nat, Request>, r: Request)
    requires (r.sync && r.kind in requests && requests[r.kind] == r) ||
             (!r.sync && r.id.Some? && r.kind in outboxes && r.id.value in outboxes[r.kind] && outboxes[r.kind][r.id.value] == r)
    ensures Pending(requests, outboxes, r)
  {
  }

  lemma FinishKeeps(requests: Requests, outboxes: Outboxes, accepted: map<nat, Request>, log: seq<Event>, r: Request, e: Option<Event>)
    requires r.handle in accepted && accepted[r.handle] == r && !Pending(requests, outboxes, r)
    requires HistoryBesides(requests, outboxes, accepted, log, r.handle) && Trace(log, r.handle) == []
    requires e.Some? ==> e.value.handle == r.handle && !e.value.Closed? && Answers(accepted, e.value)
    ensures GoodHistory(requests, outboxes, accepted, log + Ending(r.handle, e))
  {
    hide Pending, Trace;
    var h, after := r.handle, log + Ending(r.handle, e);
    EndingTraces(log, h, e);
    assert Finished(Trace(after, h), h);
    forall i | 0 <= i < |after| ensures Answers(accepted, after[i]) {
      assert i < |log| ==> after[i] == log[i];
      assert i >= |log| ==> after[i] == Ending(h, e)[i - |log|];
    }
  }

  lemma EndingTraces(log: seq<Event>, h: nat, e: Option<Event>)
    requires e.Some? ==> e.value.handle == h
    ensures forall g :: Trace(log + Ending(h, e), g) == if g == h then Trace(log, h) + Ending(h, e) else Trace(log, g)
  {
    hide Trace;
    var mid := if e.Some? then log + [e.value] else log;
    if e.Some? {
      TraceGrows(log, e.value);
    }
    TraceGrows(mid, Closed(h));
    assert mid + [Closed(h)] == log + Ending(h, e);
  }

  lemma AcceptKeeps(requests: Requests, outboxes: Outboxes, before: map<nat, Request>, accepted: map<nat, Request>,
                    r: Request, log: seq<Event>)
    requires GoodSlots(requests, outboxes, before) && GoodHistory(requests, outboxes, before, log)
    requires r.handle !in before && accepted == before[r.handle := r]
    ensures GoodSlots(requests, outboxes, accepted) && HistoryBesides(requests, outboxes, accepted, log, r.handle)
    ensures !Pending(requests, outboxes, r)
  {
    hide Trace;
    if r.sync && r.kind in requests {
      assert GoodSync(requests, before, r.kind);
    }
    if !r.sync && r.id.Some? && r.kind in outboxes && r.id.value in outboxes[r.kind] {
      assert GoodAsync(outboxes, before, r.kind, r.id.value);
    }
    forall t | t in requests ensures GoodSync(requests, accepted, t) {
      assert GoodSync(requests, before, t);
    }
    forall t, i | t in outboxes && i in outboxes[t] ensures GoodAsync(outboxes, accepted, t, i) {
      assert GoodAsync(outboxes, before, t, i);
    }
  }

  ghost predicate Stored(requests: Requests, outboxes: Outboxes, requests': Requests, outboxes': Outboxes, r: Request) {
    if r.sync then r.kind !in requests && requests' == requests[r.kind := r] && outboxes' == outboxes
    else r.id.Some? && (r.kind in outboxes ==> r.id.value !in outboxes[r.kind]) && requests' == requests &&
         outboxes' == outboxes[r.kind := (if r.kind in outboxes then outboxes[r.kind] else map[])[r.id.value := r]]
  }

  // A request put into a free slot is pending, and nobody else's standing changes.
  lemma StoreKeeps(requests: Requests, outboxes: Outboxes, requests': Requests, outboxes': Outboxes,
                   accepted: map<nat, Request>, r: Request, log: seq<Event>)
    requires GoodSlots(requests, outboxes, accepted) && HistoryBesides(requests, outboxes, accepted, log, r.handle)
    requires r.handle in accepted && accepted[r.handle] == r && Trace(log, r.handle) == []
    requires Stored(requests, outboxes, requests', outboxes', r)
    ensures GoodSlots(requests', outboxes', accepted) && GoodHistory(requests', outboxes', accepted, log)
    ensures forall q :: q != r ==> (Pending(requests', outboxes', q) <==> Pending(requests, outboxes, q))
  {
    hide Trace, Finished, Answers;
    StoreKeepsSlots(requests, outboxes, requests', outboxes', accepted, r);
    StoreKeepsPending(requests, outboxes, requests', outboxes', r);
    hide Pending, GoodSlots;
  }

  lemma StoreKeepsPending(requests: Requests, outboxes: Outboxes, requests': Requests, outboxes': Outboxes, r: Request)
    requires Stored(requests, outboxes, requests', outboxes', r)
    ensures Pending(requests', outboxes', r)
    ensures forall q :: q != r ==> (Pending(requests', outboxes', q) <==> Pending(requests, outboxes, q))
  {
    forall q | q != r ensures Pending(requests', outboxes', q) <==> Pending(requests, outboxes, q) {
    }
  }

  lemma StoreKeepsSlots(requests: Requests, outboxes: Outboxes, requests': Requests, outboxes': Outboxes,
                        accepted: map<nat, Request>, r: Request)
    requires GoodSlots(requests, outboxes, accepted) && r.handle in accepted && accepted[r.handle] == r
    requires Stored(requests, outboxes, requests', outboxes', r)
    ensures GoodSlots(requests', outboxes', accepted)
  {
    forall t | t in requests' ensures GoodSync(requests', accepted, t) {
      assert t in requests ==> GoodSync(requests, accepted, t);
    }
    forall t, i | t in outboxes' && i in outboxes'[t] ensures GoodAsync(outboxes', accepted, t, i) {
      assert t in outboxes && i in outboxes[t] ==> GoodAsync(outboxes, accepted, t, i);
    }
  }

  // A request taken out of its slot is not pending, and nobody else's standing changes.
  lemma TakeKeeps(requests: Requests, outboxes: Outboxes, requests': Requests, outboxes': Outboxes,
                  accepted: map<nat, Request>, r: Request, log: seq<Event>)
    requires GoodSlots(requests, outboxes, accepted) && GoodHistory(requests, outboxes, accepted, log)
    requires Took(requests, outboxes, requests', outboxes', r) && r.handle in accepted && accepted[r.handle] == r
    ensures GoodSlots(requests', outboxes', accepted) && HistoryBesides(requests', outboxes', accepted, log, r.handle)
    ensures !Pending(requests', outboxes', r) && Trace(log, r.handle) == []
  {
    hide Trace, Finished, Answers;
    TakeKeepsSlots(requests, outboxes, requests', outboxes', accepted, r);
    TakeKeepsPending(requests, outboxes, requests', outboxes', r);
    hide Pending, GoodSlots;
  }

  ghost predicate Took(requests: Requests, outboxes: Outboxes, requests': Requests, outboxes': Outboxes, r: Request) {
    && Pending(requests, outboxes, r)
    && if r.sync then requests' == requests - {r.kind} && outboxes' == outboxes
       else requests' == requests && outboxes' == outboxes[r.kind := outboxes[r.kind] - {r.id.value}]
  }

  lemma TakeKeepsPending(requests: Requests, outboxes: Outboxes, requests': Requests, outboxes': Outboxes, r: Request)
    requires Took(requests, outboxes, requests', outboxes', r)
    ensures !Pending(requests', outboxes', r)
    ensures forall q :: q != r ==> (Pending(requests', outboxes', q) <==> Pending(requests, outboxes, q))
  {
    forall q | q != r ensures Pending(requests', outboxes', q) <==> Pending(requests, outboxes, q) {
    }
  }

  lemma TakeKeepsSlots(requests: Requests, outboxes: Outboxes, requests': Requests, outboxes': Outboxes,
                       accepted: map<nat, Request>, r: Request)
    requires GoodSlots(requests, outboxes, accepted) && Took(requests, outboxes, requests', outboxes', r)
    ensures GoodSlots(requests', outboxes', accepted)
  {
    forall t | t in requests' ensures GoodSync(requests', accepted, t) {
      assert GoodSync(requests, accepted, t);
    }
    forall t, i | t in outboxes' && i in outboxes'[t] ensures GoodAsync(outboxes', accepted, t, i) {
      assert GoodAsync(outboxes, accepted, t, i);
    }
  }

  lemma DropEmpty(requests: Requests, outboxes: Outboxes, accepted: map<nat, Request>, log: seq<Event>, t: PacketType)
    requires GoodSlots(requests, outboxes, accepted) && GoodHistory(requests, outboxes, accepted, log)
    requires t in outboxes && outboxes[t].Keys == {}
    ensures GoodSlots(requests, outboxes - {t}, accepted) && GoodHistory(requests, outboxes - {t}, accepted, log)
  {
    hide Trace;
    var next := outboxes - {t};
    forall s, i | s in next && i in next[s] ensures GoodAsync(next, accepted, s, i) {
      assert GoodAsync(outboxes, accepted, s, i);
    }
    forall q ensures Pending(requests, next, q) <==> Pending(requests, outboxes, q) {
    }
  }
}

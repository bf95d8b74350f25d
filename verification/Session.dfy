/** One client connection: the message loop of worker.go, the handshake that names
    the device, and the handlers that reach the store. Everything outside the
    worker, from socket writes to the balancer, answers through the input. */
module Session {
  import opened Prelude
  import opened Ids

  datatype WorkerState = Inactive | Active | Stopped

  datatype Error =
    | ErrNoParams | ErrExistingID | ErrInvalidParams | ErrNoHandshake | ErrTooManyPings
    | ErrUnsupportedType | ErrElsewhere

  // ---- The handshake -------------------------------------------------------------

  /** A hello: the requested device id (empty if omitted) and how many channels it
      lists, None when the list is missing. */
  datatype Hello = Hello(deviceID: bytes, channels: Option<nat>)

  /** What the handshake asks of the rest of the server: whether that many channels
      are allowed, whether the device is known, and sixteen random bytes. */
  datatype Answers = Answers(canStore: bool, exists_: bool, random: Option<bytes>)

  datatype Outcome = Named(uaid: bytes, allowRedirect: bool) | Refused(err: Error)

  // forceReset: a new device id from the random source.
  function ForceReset(answers: Answers): Outcome {
    match answers.random
    case Some(b) => if |b| == 16 then Named(HexText(b), true) else Refused(ErrElsewhere)
    case None => Refused(ErrElsewhere)
  }

  function Handshake(current: bytes, hello: Hello, answers: Answers): Outcome {
    if hello.channels.None? then Refused(ErrNoParams)
    else if current != [] then
      if hello.deviceID == [] || hello.deviceID == current then Named(current, false) else Refused(ErrExistingID)
    else if hello.deviceID == [] || !ValidId(hello.deviceID) then ForceReset(answers)
    else if !answers.canStore then ForceReset(answers)
    else if hello.channels.value > 0 && !answers.exists_ then ForceReset(answers)
    else Named(hello.deviceID, true)
  }

  /** A handshake never renames: a worker that has an id keeps it or is refused, and
      one that has none gets a valid id. The balancer is asked only the first time. */
  lemma HandshakeNamesOnce(current: bytes, hello: Hello, answers: Answers)
    ensures var r := Handshake(current, hello, answers);
            && (r.Named? && current != [] ==> r.uaid == current)
            && (r.Named? && current == [] ==> ValidId(r.uaid))
            && (r.Named? ==> (r.allowRedirect <==> current == []))
            && (r == Refused(ErrExistingID) <==>
                hello.channels.Some? && current != [] && hello.deviceID != [] && hello.deviceID != current)
  {
    if answers.random.Some? && |answers.random.value| == 16 {
      HexTextIsLower(answers.random.value);
    }
  }

  // The device a first handshake asks for can go on with its channels.
  predicate Welcome(hello: Hello, answers: Answers) {
    && ValidId(hello.deviceID)
    && answers.canStore
    && (hello.channels == Some(0) || answers.exists_)
  }

  /** A first handshake: the requested id is kept exactly when it is valid, its channels
      can be stored and it either lists none or is known; any other device gets the hex
      text of sixteen random bytes, and is refused without them. */
  lemma FirstHandshake(hello: Hello, answers: Answers)
    ensures var r := Handshake([], hello, answers);
            && (r == Refused(ErrNoParams) <==> hello.channels.None?)
            && (hello.channels.Some? ==>
                  var fresh_ := if answers.random.Some? && |answers.random.value| == 16 then Some(HexText(answers.random.value)) else None;
                  && (Welcome(hello, answers) ==> r == Named(hello.deviceID, true))
                  && (!Welcome(hello, answers) ==> r == if fresh_.Some? then Named(fresh_.value, true) else Refused(ErrElsewhere))
                  && (fresh_ != Some(hello.deviceID) ==> (r == Named(hello.deviceID, true) <==> Welcome(hello, answers))))
  {
    hide HexText;
  }

  // ---- Messages --------------------------------------------------------------------

  /** An acknowledged update: the channel and the version the client was sent. */
  datatype Acked = Acked(chid: bytes, version: uint64)

  /** A message with the answers it gets. `drops` is how many Drop calls succeed before
      one fails; `redirected` is the balancer's answer to a first handshake. */
  datatype Input =
    | HelloMsg(hello: Hello, answers: Answers, redirected: bool, wrote: bool, flushed: bool)
    | AckMsg(updates: seq<Acked>, expired: seq<bytes>, drops: nat, flushed: bool)
    | RegisterMsg(chid: bytes, stored: bool, endpoint: bool)
    | UnregisterMsg(chid: bytes)
    | PingMsg(now: int)
    | PurgeMsg
    | Unparsed
    | Unsupported
    | ReadError
    | IdleTimeout(pong: bool)

  /** A call that reaches the store for a device. */
  datatype Call =
    | Drop(u: bytes, c: bytes) | Register(u: bytes, c: bytes) | Unregister(u: bytes, c: bytes)
    | FetchAll(u: bytes) | DropAll(u: bytes)

  // ---- What a message leads to --------------------------------------------------------

  // The store calls for a device, in order. Versions play no part in those of an Ack.
  function CallsOf(uaid: bytes, m: Input): seq<Call> {
    match m
    case HelloMsg(hello, answers, redirected, wrote, _) =>
      var r := Handshake(uaid, hello, answers);
      (if uaid == [] && hello.channels.Some? && ValidId(hello.deviceID) && !answers.canStore
       then [DropAll(hello.deviceID)] else []) +
      (if r.Named? && !(r.allowRedirect && redirected) && wrote then [FetchAll(r.uaid)] else [])
    case AckMsg(updates, expired, drops, _) => AckCalls(uaid, Channels(updates) + expired, drops)
    case RegisterMsg(chid, _, _) => if uaid != [] && ValidId(chid) then [Call.Register(uaid, chid)] else []
    case UnregisterMsg(chid) => if uaid != [] && chid != [] then [Call.Unregister(uaid, chid)] else []
    case _ => []
  }

  // An Ack drops its channels in turn, up to the first failure, and then fetches.
  function AckCalls(uaid: bytes, chids: seq<bytes>, drops: nat): seq<Call> {
    if uaid == [] || chids == [] then []
    else if |chids| <= drops then DropCalls(uaid, chids) + [FetchAll(uaid)]
    else DropCalls(uaid, chids[..drops + 1])
  }

  function Channels(updates: seq<Acked>): (chids: seq<bytes>)
    ensures |chids| == |updates|
  {
    seq(|updates|, i requires 0 <= i < |updates| => updates[i].chid)
  }

  function DropCalls(u: bytes, chids: seq<bytes>): seq<Call> {
    seq(|chids|, i requires 0 <= i < |chids| => Drop(u, chids[i]))
  }

  // The error a handler returns. Unregistering succeeds whatever the store says.
  ghost function Failure(uaid: bytes, lastPing: Option<int>, pingInt: int, m: Input): Option<Error> {
    match m
    case HelloMsg(hello, answers, redirected, wrote, flushed) =>
      (match Handshake(uaid, hello, answers)
       case Refused(e) => Some(e)
       case Named(_, first) => if (first && redirected) || (wrote && flushed) then None else Some(ErrElsewhere))
    case AckMsg(updates, expired, drops, flushed) =>
      if uaid == [] then Some(ErrNoHandshake)
      else if |updates| + |expired| == 0 then Some(ErrNoParams)
      else if |updates| + |expired| <= drops && flushed then None
      else Some(ErrElsewhere)
    case RegisterMsg(chid, stored, endpoint) =>
      if uaid == [] then Some(ErrNoHandshake)
      else if !ValidId(chid) then Some(ErrInvalidParams)
      else if stored && endpoint then None
      else Some(ErrElsewhere)
    case UnregisterMsg(chid) =>
      if uaid == [] then Some(ErrNoHandshake) else if chid == [] then Some(ErrNoParams) else None
    case PingMsg(now) =>
      if pingInt > 0 && lastPing.Some? && now - lastPing.value < pingInt then Some(ErrTooManyPings) else None
    case Unparsed => Some(ErrInvalidParams)
    case Unsupported => Some(ErrUnsupportedType)
    case _ => None
  }

  // Whether the session is over after a message.
  ghost predicate Ends(uaid: bytes, state: WorkerState, lastPing: Option<int>, pingInt: int, m: Input) {
    || Failure(uaid, lastPing, pingInt, m).Some?
    || m.ReadError?
    || (m.IdleTimeout? && (state == Inactive || !m.pong))
    || (m.HelloMsg? && uaid == [] && m.redirected)
  }

  ghost function NameAfter(uaid: bytes, m: Input): bytes {
    if m.HelloMsg? && Handshake(uaid, m.hello, m.answers).Named? then Handshake(uaid, m.hello, m.answers).uaid else uaid
  }

  /** Which error each message can end with, and exactly when. */
  lemma FailureIff(uaid: bytes, lastPing: Option<int>, pingInt: int, m: Input)
    ensures var f := Failure(uaid, lastPing, pingInt, m);
            && (f == Some(ErrNoHandshake) <==> (m.AckMsg? || m.RegisterMsg? || m.UnregisterMsg?) && uaid == [])
            && (f == Some(ErrExistingID) <==> m.HelloMsg? && m.hello.channels.Some? && uaid != [] &&
                                              m.hello.deviceID != [] && m.hello.deviceID != uaid)
            && (f == Some(ErrTooManyPings) <==> m.PingMsg? && pingInt > 0 && lastPing.Some? && m.now < lastPing.value + pingInt)
            && (f == Some(ErrUnsupportedType) <==> m.Unsupported?)
            && (f == Some(ErrInvalidParams) <==> m.Unparsed? || (m.RegisterMsg? && uaid != [] && !ValidId(m.chid)))
            && (f == Some(ErrNoParams) <==> || (m.HelloMsg? && m.hello.channels.None?)
                                            || (m.AckMsg? && uaid != [] && m.updates == [] && m.expired == [])
                                            || (m.UnregisterMsg? && uaid != [] && m.chid == []))
            && (f == Some(ErrElsewhere) ==> m.HelloMsg? || m.AckMsg? || m.RegisterMsg?)
            && (f.None? && m.AckMsg? ==> |m.updates| + |m.expired| <= m.drops && m.flushed)
            && (f.None? && m.RegisterMsg? ==> m.stored && m.endpoint)
  {
    hide HexText;
  }

  /** When a session goes on: after a purge always; after an idle timeout exactly if it
      had said hello and could be written to; after a read error or a message that could
      not be understood never; after any other message exactly if its handler returned no
      error and the client was not redirected. */
  lemma GoesOnIff(uaid: bytes, state: WorkerState, lastPing: Option<int>, pingInt: int, m: Input)
    ensures var over := Ends(uaid, state, lastPing, pingInt, m);
            && (m.PurgeMsg? ==> !over)
            && (m.IdleTimeout? ==> (!over <==> state != Inactive && m.pong))
            && (m.ReadError? || m.Unparsed? || m.Unsupported? ==> over)
            && (m.PingMsg? ==> (!over <==> pingInt <= 0 || lastPing.None? || m.now >= lastPing.value + pingInt))
            && (m.AckMsg? || m.RegisterMsg? || m.UnregisterMsg? ==> (!over <==> Failure(uaid, lastPing, pingInt, m).None?))
            && (m.HelloMsg? ==> (!over <==> Handshake(uaid, m.hello, m.answers).Named? && m.wrote && m.flushed &&
                                            !(uaid == [] && m.redirected)))
  {
    hide HexText;
    if m.HelloMsg? {
      HandshakeNamesOnce(uaid, m.hello, m.answers);
    }
  }

  /** Which store calls each message leads to, and exactly when. */
  lemma CallsIff(uaid: bytes, m: Input, u: bytes, c: bytes)
    ensures var cs := CallsOf(uaid, m);
            && (DropAll(u) in cs <==> m.HelloMsg? && uaid == [] && m.hello.channels.Some? && u == m.hello.deviceID &&
                                      ValidId(u) && !m.answers.canStore)
            && (Call.Register(u, c) in cs <==> m.RegisterMsg? && uaid != [] && u == uaid && c == m.chid && ValidId(c))
            && (Call.Unregister(u, c) in cs <==> m.UnregisterMsg? && uaid != [] && u == uaid && c == m.chid && c != [])
            && (Drop(u, c) in cs ==> m.AckMsg? && uaid != [] && u == uaid && c in Channels(m.updates) + m.expired)
            && (FetchAll(u) in cs ==> (m.HelloMsg? && u == NameAfter(uaid, m)) || (m.AckMsg? && u == uaid))
  {
    hide HexText;
  }

  /** An acknowledgement drops its channels one by one, and fetches only if every drop
      succeeded; after a failure the rest are left alone. */
  lemma AckInOrder(uaid: bytes, m: Input)
    requires m.AckMsg? && uaid != [] && |m.updates| + |m.expired| > 0
    ensures var cs, n := CallsOf(uaid, m), |m.updates| + |m.expired|;
            && |cs| == (if n <= m.drops then n + 1 else m.drops + 1)
            && (forall i :: 0 <= i < |m.updates| && i <= m.drops ==> cs[i] == Drop(uaid, m.updates[i].chid))
            && (forall i :: 0 <= i < |m.expired| && |m.updates| + i <= m.drops ==> cs[|m.updates| + i] == Drop(uaid, m.expired[i]))
            && (n <= m.drops ==> cs[n] == FetchAll(uaid))
  {
  }

  /** The versions in an acknowledgement change nothing: only its channels matter. */
  lemma AckIgnoresVersions(uaid: bytes, m: Input, n: Input)
    requires m.AckMsg? && n.AckMsg? && m.expired == n.expired && m.drops == n.drops
    requires |m.updates| == |n.updates|
    requires forall i :: 0 <= i < |m.updates| ==> m.updates[i].chid == n.updates[i].chid
    ensures CallsOf(uaid, m) == CallsOf(uaid, n)
  {
    assert Channels(m.updates) == Channels(n.updates);
  }

  class Worker {
    const pingInt: int
    var uaid: bytes
    var state: WorkerState
    var lastPing: Option<int>
    // What happened so far: the store calls made and the times of accepted pings.
    var calls: seq<Call>
    ghost var pings: seq<int>

    constructor (pingInt: int)
      ensures this.pingInt == pingInt && uaid == [] && state == Inactive && calls == [] && pings == [] && Valid()
    {
      this.pingInt := pingInt;
      uaid, state, lastPing := [], Inactive, None;
      calls, pings := [], [];
    }

    ghost predicate Valid()
      reads this
    {
      && (uaid != [] ==> ValidId(uaid))
      && OwnCallsOnly(calls, uaid)
      && Spaced(pings, pingInt)
      && lastPing == if pings == [] then None else Some(pings[|pings| - 1])
    }

    method Hello(m: Input) returns (err: Option<Error>)
      requires Valid() && m.HelloMsg?
      modifies this
      ensures Valid() && uaid == NameAfter(old(uaid), m) && pings == old(pings)
      ensures calls == old(calls) + CallsOf(old(uaid), m)
      ensures err == Failure(old(uaid), old(lastPing), pingInt, m)
      ensures state == if uaid == [] || Handshake(old(uaid), m.hello, m.answers).Refused? then old(state)
                       else if old(uaid) == [] && m.redirected then Stopped
                       else if m.wrote then Active
                       else old(state)
    {
      hide Spaced;
      HandshakeNamesOnce(uaid, m.hello, m.answers);
      if uaid == [] && m.hello.channels.Some? && ValidId(m.hello.deviceID) && !m.answers.canStore {
        calls := calls + [DropAll(m.hello.deviceID)];
      }
      var r := Handshake(uaid, m.hello, m.answers);
      if r.Refused? {
        return Some(r.err);
      }
      uaid := r.uaid;
      if r.allowRedirect && m.redirected {
        state := Stopped;
        return None;
      }
      if !m.wrote {
        return Some(ErrElsewhere);
      }
      state := Active;
      calls := calls + [FetchAll(uaid)];
      return if m.flushed then None else Some(ErrElsewhere);
    }

    // Both loops of Ack stop at the first Drop that fails.
    method DropUpdates(updates: seq<Acked>, limit: nat) returns (done: bool)
      requires Valid() && uaid != []
      modifies this`calls
      ensures done <==> |updates| <= limit
      ensures calls == old(calls) + DropCalls(uaid, if done then Channels(updates) else Channels(updates)[..limit + 1])
      ensures Valid()
    {
      ghost var chids := Channels(updates);
      for n := 0 to |updates|
        invariant n <= limit && OwnCallsOnly(calls, uaid)
        invariant calls == old(calls) + DropCalls(uaid, chids[..n])
      {
        calls := calls + [Drop(uaid, updates[n].chid)];
        if n == limit {
          return false;
        }
      }
      assert chids[..|chids|] == chids;
      done := true;
    }

    method DropExpired(chids: seq<bytes>, limit: nat) returns (done: bool)
      requires Valid() && uaid != []
      modifies this`calls
      ensures done <==> |chids| <= limit
      ensures calls == old(calls) + DropCalls(uaid, if done then chids else chids[..limit + 1])
      ensures Valid()
    {
      for n := 0 to |chids|
        invariant n <= limit && OwnCallsOnly(calls, uaid)
        invariant calls == old(calls) + DropCalls(uaid, chids[..n])
      {
        calls := calls + [Drop(uaid, chids[n])];
        if n == limit {
          return false;
        }
      }
      assert chids[..|chids|] == chids;
      done := true;
    }

    method Ack(m: Input) returns (err: Option<Error>)
      requires Valid() && m.AckMsg?
      modifies this`calls
      ensures Valid()
      ensures calls == old(calls) + CallsOf(uaid, m)
      ensures err == Failure(uaid, lastPing, pingInt, m)
    {
      hide Handshake, ValidId, Spaced, Channels, DropCalls;
      if uaid == [] {
        return Some(ErrNoHandshake);
      }
      if |m.updates| == 0 && |m.expired| == 0 {
        return Some(ErrNoParams);
      }
      DropsSplit(uaid, Channels(m.updates), m.expired, m.drops);
      var done := DropUpdates(m.updates, m.drops);
      if !done {
        return Some(ErrElsewhere);
      }
      done := DropExpired(m.expired, m.drops - |m.updates|);
      if !done {
        return Some(ErrElsewhere);
      }
      calls := calls + [FetchAll(uaid)];
      return if m.flushed then None else Some(ErrElsewhere);
    }

    method Register(m: Input) returns (err: Option<Error>)
      requires Valid() && m.RegisterMsg?
      modifies this`calls
      ensures Valid()
      ensures calls == old(calls) + CallsOf(uaid, m)
      ensures err == Failure(uaid, lastPing, pingInt, m)
    {
      if uaid == [] {
        return Some(ErrNoHandshake);
      }
      if !ValidId(m.chid) {
        return Some(ErrInvalidParams);
      }
      calls := calls + [Call.Register(uaid, m.chid)];
      return if m.stored && m.endpoint then None else Some(ErrElsewhere);
    }

    // Always succeeds once the store was asked.
    method Unregister(m: Input) returns (err: Option<Error>)
      requires Valid() && m.UnregisterMsg?
      modifies this`calls
      ensures Valid()
      ensures calls == old(calls) + CallsOf(uaid, m)
      ensures err == Failure(uaid, lastPing, pingInt, m)
    {
      if uaid == [] {
        return Some(ErrNoHandshake);
      }
      if m.chid == [] {
        return Some(ErrNoParams);
      }
      calls := calls + [Call.Unregister(uaid, m.chid)];
      return None;
    }

    method Ping(now: int) returns (err: Option<Error>)
      requires Valid()
      modifies this`lastPing, this`pings, this`state
      ensures Valid()
      ensures err == if pingInt > 0 && old(pings) != [] && now - old(pings)[|old(pings)| - 1] < pingInt
                     then Some(ErrTooManyPings) else None
      ensures err.None? ==> pings == old(pings) + [now] && state == old(state)
      ensures err.Some? ==> pings == old(pings) && state == Stopped
    {
      if pingInt > 0 && lastPing.Some? && now - lastPing.value < pingInt {
        state := Stopped;
        return Some(ErrTooManyPings);
      }
      lastPing := Some(now);
      pings := pings + [now];
      return None;
    }

    // One turn of the sniffer.
    method Handle(m: Input)
      requires Valid() && state != Stopped
      modifies this
      ensures Valid() && uaid == NameAfter(old(uaid), m)
      ensures calls == old(calls) + CallsOf(old(uaid), m)
      ensures state == Stopped <==> Ends(old(uaid), old(state), old(lastPing), pingInt, m)
      ensures pings == if m.PingMsg? && state != Stopped then old(pings) + [m.now] else old(pings)
    {
      hide Handshake, ValidId, Spaced, OwnCallsOnly, DropCalls;
      var err: Option<Error> := None;
      match m {
        case HelloMsg(_, _, _, _, _) =>
          HandshakeNamesOnce(uaid, m.hello, m.answers);
          err := Hello(m);
        case AckMsg(_, _, _, _) => err := Ack(m);
        case RegisterMsg(_, _, _) => err := Register(m);
        case UnregisterMsg(_) => err := Unregister(m);
        case PingMsg(now) => err := Ping(now);
        case PurgeMsg =>
        case Unparsed => err := Some(ErrInvalidParams);
        case Unsupported => err := Some(ErrUnsupportedType);
        case ReadError => state := Stopped;
        case IdleTimeout(pong) =>
          if state == Inactive || !pong {
            state := Stopped;
          }
      }
      if err.Some? {
        state := Stopped;
      }
    }

    /** A whole session: any messages with any answers, from any point on. The device
        id is set at most once, every store call carries it but the DropAll of handshakes
        that came before there was one, and accepted pings keep their distance. */
    method Sniff(inputs: seq<Input>)
      requires Valid()
      modifies this
      ensures Valid() && Keeps(old(uaid), old(calls), old(pings), uaid, calls, pings)
      ensures pingInt > 0 && pings != [] ==> pings[|pings| - 1] - pings[0] >= (|pings| - 1) * pingInt
    {
      for i := 0 to |inputs|
        invariant Valid() && Keeps(old(uaid), old(calls), old(pings), uaid, calls, pings)
      {
        if state == Stopped {
          break;
        }
        if uaid != [] {
          HelloKeepsName(uaid, inputs[i]);
        }
        Handle(inputs[i]);
      }
      if pingInt > 0 && pings != [] {
        PingsKeepDistance(pings, pingInt);
      }
    }
  }

  lemma HelloKeepsName(uaid: bytes, m: Input)
    requires uaid != []
    ensures NameAfter(uaid, m) == uaid
  {
    if m.HelloMsg? {
      HandshakeNamesOnce(uaid, m.hello, m.answers);
    }
  }

  lemma DropsSplit(u: bytes, a: seq<bytes>, b: seq<bytes>, n: nat)
    ensures DropCalls(u, a) + DropCalls(u, b) == DropCalls(u, a + b)
    ensures n < |a| ==> (a + b)[..n + 1] == a[..n + 1]
    ensures |a| <= n < |a| + |b| ==> DropCalls(u, a) + DropCalls(u, b[..n - |a| + 1]) == DropCalls(u, (a + b)[..n + 1])
  {
  }

  // Only DropAll may name another device, and only before the worker has an id.
  ghost predicate OwnCallsOnly(calls: seq<Call>, uaid: bytes) {
    forall i :: 0 <= i < |calls| ==>
      if calls[i].DropAll? then forall j :: 0 <= j < i ==> calls[j].DropAll?
      else uaid != [] && calls[i].u == uaid
  }

  // The id is never changed once set, and what happened stays happened.
  ghost predicate Keeps(uaid: bytes, calls: seq<Call>, pings: seq<int>, uaid': bytes, calls': seq<Call>, pings': seq<int>) {
    (uaid != [] ==> uaid' == uaid) && calls <= calls' && pings <= pings'
  }

  ghost predicate Spaced(pings: seq<int>, gap: int) {
    gap > 0 ==> forall i :: 0 < i < |pings| ==> pings[i] - pings[i - 1] >= gap
  }

  /** Any n accepted pings span at least n - 1 intervals. */
  lemma {:induction false} PingsKeepDistance(pings: seq<int>, gap: int)
    requires gap > 0 && pings != [] && Spaced(pings, gap)
    ensures pings[|pings| - 1] - pings[0] >= (|pings| - 1) * gap
    decreases |pings|
  {
    if |pings| > 1 {
      var front := pings[..|pings| - 1];
      PingsKeepDistance(front, gap);
      assert (|pings| - 1) * gap == (|front| - 1) * gap + gap;
    }
  }
}

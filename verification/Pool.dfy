/** The connection pool of emcee_store.go: its critical sections as methods, and
    every interleaving of its callers as a state machine over those sections,
    with sleeping and waking on the condition variable made explicit. */
module Pool {
  import opened Prelude

  // ---- Errors --------------------------------------------------------------------

  const BAD_KEY := "A BAD KEY WAS PROVIDED/CHARACTERS OUT OF RANGE"

  /** isFatalError: of the four listed messages only the last case has a body, and
      Go's cases do not fall through, so the other three are fatal as well. */
  predicate IsFatal(err: Option<string>) {
    match err
    case None => false
    case Some(text) =>
      if text == "NOT STORED" then true
      else if text == "NOT FOUND" then true
      else if text == "A KEY LENGTH OF ZERO WAS PROVIDED" then true
      else text != BAD_KEY
  }

  lemma OnlyBadKeyIsKept(err: Option<string>)
    ensures !IsFatal(err) <==> err == None || err == Some("A BAD KEY WAS PROVIDED/CHARACTERS OUT OF RANGE")
  {
  }

  // ---- The critical sections -------------------------------------------------------

  datatype Client = Client(id: nat) | NilClient

  datatype Shared = Shared(capacity: int, clients: seq<Client>, isClosed: bool)

  /** What one pass of getClient decides while it holds the lock. */
  datatype Decision = Sleep | Eof | Take(client: Client) | Open

  function Enter(max: nat, s: Shared): (Shared, Decision) {
    if s.isClosed then (s, Eof)
    else if |s.clients| > 0 then (s.(clients := s.clients[1..]), Take(s.clients[0]))
    else if s.capacity < max then (s.(capacity := s.capacity + 1), Open)
    else (s, Sleep)
  }

  function Release(max: nat, s: Shared, client: Client, err: Option<string>): Shared {
    if IsFatal(err) then s.(capacity := s.capacity - 1)
    else if s.capacity > max then s
    else s.(clients := s.clients + [client])
  }

  class EmceeStore {
    const maxConns: nat
    var capacity: int
    var clients: seq<Client>
    var isClosed: bool

    constructor (max: nat)
      ensures maxConns == max && State() == Shared(0, [], false)
    {
      maxConns := max;
      capacity, clients, isClosed := 0, [], false;
    }

    ghost function State(): Shared
      reads this
    {
      Shared(capacity, clients, isClosed)
    }

    // One pass of getClient's loop, from taking the lock to Wait or to Unlock.
    method GetClient() returns (d: Decision)
      modifies this
      ensures (State(), d) == Enter(maxConns, old(State()))
    {
      if !(isClosed || |clients| > 0 || capacity < maxConns) {
        return Sleep;
      }
      if isClosed {
        return Eof;
      }
      if |clients| > 0 {
        var client := clients[0];
        clients := clients[1..];
        return Take(client);
      }
      capacity := capacity + 1;
      return Open;
    }

    // releaseWithout, up to the deferred Signal.
    method ReleaseWithout(client: Client, err: Option<string>)
      modifies this
      ensures State() == Release(maxConns, old(State()), client, err)
    {
      if IsFatal(err) {
        capacity := capacity - 1;
        return;
      }
      if capacity > maxConns {
        return;
      }
      clients := clients + [client];
    }

    // Close, up to the deferred Broadcast.
    method Close()
      modifies this
      ensures State() == old(State()).(clients := [], isClosed := true)
    {
      clients := [];
      isClosed := true;
    }
  }

  // ---- Interleavings -----------------------------------------------------------------

  /** Where a caller is: outside, asleep in Wait, woken but not yet running, opening
      a connection, holding one, about to give back a call whose connection could not be
      opened, or one refused because the pool is closed. */
  datatype Phase = Outside | Asleep | Woken | Opening | Holding(client: Client) | Failed(err: string) | Refused

  datatype System = System(shared: Shared, phase: map<nat, Phase>)

  datatype Step =
    | Call(c: nat)
    | Resume(c: nat)
    | Opened(c: nat, id: nat)
    | OpenFailed(c: nat, reason: string)
    | GiveBack(c: nat, err: Option<string>, woken: Option<nat>)
    | Close

  // Busy callers are those that a unit of capacity is charged to.
  datatype Kind = Idle | Sleeping | Waking | Refusing | Charged

  function KindOf(p: Phase): Kind {
    match p
    case Outside => Idle
    case Asleep => Sleeping
    case Woken => Waking
    case Refused => Refusing
    case _ => Charged
  }

  ghost function Callers(s: System, k: Kind): set<nat> {
    set c | c in s.phase && KindOf(s.phase[c]) == k
  }

  ghost function Count(s: System, k: Kind): nat {
    |Callers(s, k)|
  }

  // A connection id that nobody uses.
  ghost predicate Unused(s: System, id: nat) {
    && Client(id) !in s.shared.clients
    && forall c :: c in s.phase ==> s.phase[c] != Holding(Client(id))
  }

  ghost predicate Enabled(s: System, step: Step) {
    match step
    case Call(c) => c in s.phase && s.phase[c] == Outside
    case Resume(c) => c in s.phase && s.phase[c] == Woken
    case Opened(c, id) => c in s.phase && s.phase[c] == Opening && Unused(s, id)
    case OpenFailed(c, _) => c in s.phase && s.phase[c] == Opening
    case GiveBack(c, err, woken) =>
      && c in s.phase
      && (s.phase[c].Holding? || (s.phase[c].Failed? && err == Some(s.phase[c].err)) ||
          (s.phase[c].Refused? && err == Some("EOF")))
      // Signal wakes one sleeper whenever there is one.
      && (match woken
          case Some(w) => w in s.phase && s.phase[w] == Asleep
          case None => Count(s, Sleeping) == 0)
    case Close => true
  }

  function PhaseAfter(d: Decision): Phase {
    match d
    case Sleep => Asleep
    case Eof => Refused
    case Take(client) => Holding(client)
    case Open => Opening
  }

  ghost function Apply(max: nat, s: System, step: Step): System
    requires Enabled(s, step)
  {
    match step
    case Call(c) =>
      var (shared, d) := Enter(max, s.shared);
      System(shared, s.phase[c := PhaseAfter(d)])
    case Resume(c) =>
      var (shared, d) := Enter(max, s.shared);
      System(shared, s.phase[c := PhaseAfter(d)])
    case Opened(c, id) => s.(phase := s.phase[c := Holding(Client(id))])
    case OpenFailed(c, err) => s.(phase := s.phase[c := Failed(err)])
    case GiveBack(c, err, woken) =>
      var client := if s.phase[c].Holding? then s.phase[c].client else NilClient;
      var phase := s.phase[c := Outside];
      System(Release(max, s.shared, client, err), if woken.Some? then phase[woken.value := Woken] else phase)
    case Close =>
      System(s.shared.(clients := [], isClosed := true),
             map c | c in s.phase :: if s.phase[c].Asleep? then Woken else s.phase[c])
  }

  ghost function Initial(callers: set<nat>): System {
    System(Shared(0, [], false), map c | c in callers :: Outside)
  }

  ghost predicate Takes(max: nat, s: System, step: Step, t: System) {
    Enabled(s, step) && t == Apply(max, s, step)
  }

  /** An interleaving: the steps taken and the states passed through. */
  ghost predicate Run(max: nat, callers: set<nat>, steps: seq<Step>, trace: seq<System>) {
    && |trace| == |steps| + 1 && trace[0] == Initial(callers)
    && forall i :: 0 <= i < |steps| ==> Takes(max, trace[i], steps[i], trace[i + 1])
  }

  // ---- What every interleaving keeps ---------------------------------------------------

  // Connections that could be had right away.
  ghost function Free(max: nat, s: System): int {
    |s.shared.clients| + max - s.shared.capacity
  }

  ghost predicate Accounting(max: nat, s: System) {
    && s.shared.capacity == |s.shared.clients| + Count(s, Charged)
    && 0 <= s.shared.capacity <= max
  }

  ghost predicate NoLostWakeup(max: nat, s: System) {
    Count(s, Sleeping) > 0 ==> Free(max, s) <= Count(s, Waking)
  }

  // No connection is idle twice, held twice, or both.
  ghost predicate Exclusive(s: System) {
    && (forall i, j :: 0 <= i < j < |s.shared.clients| && s.shared.clients[i].Client? ==>
          s.shared.clients[i] != s.shared.clients[j])
    && (forall c, d :: c in s.phase && d in s.phase && c != d && s.phase[c].Holding? && s.phase[c].client.Client? ==>
          s.phase[d] != s.phase[c])
    && (forall c :: c in s.phase && s.phase[c].Holding? && s.phase[c].client.Client? ==>
          s.phase[c].client !in s.shared.clients)
  }

  ghost predicate Inv(max: nat, s: System) {
    && Exclusive(s)
    && s.shared.capacity <= max
    && (if s.shared.isClosed then Count(s, Sleeping) == 0
        else Count(s, Refusing) == 0 && Accounting(max, s) && NoLostWakeup(max, s))
  }

  // Moving one caller changes the size of its old class and of its new one.
  lemma {:induction false} Moved(s: System, t: System, c: nat, p: Phase, k: Kind)
    requires c in s.phase && t.phase == s.phase[c := p]
    ensures Count(t, k) == Count(s, k) + (if KindOf(p) == k then 1 else 0) - (if KindOf(s.phase[c]) == k then 1 else 0)
  {
    SameBesides(Callers(t, k), Callers(s, k), c);
  }

  // Sets that differ at most in c differ in size by c alone.
  lemma SameBesides(x: set<nat>, y: set<nat>, c: nat)
    requires forall d :: d != c ==> (d in x <==> d in y)
    ensures |x| + (if c in y then 1 else 0) == |y| + (if c in x then 1 else 0)
  {
    assert x - {c} == y - {c};
    assert c in x ==> x == x - {c} + {c};
    assert c !in x ==> x == x - {c};
    assert c in y ==> y == y - {c} + {c};
    assert c !in y ==> y == y - {c};
  }

  lemma MovedAll(s: System, t: System, c: nat, p: Phase)
    requires c in s.phase && t.phase == s.phase[c := p]
    ensures forall k :: Count(t, k) == Count(s, k) + (if KindOf(p) == k then 1 else 0) -
                                       (if KindOf(s.phase[c]) == k then 1 else 0)
  {
    forall k ensures Count(t, k) == Count(s, k) + (if KindOf(p) == k then 1 else 0) -
                                    (if KindOf(s.phase[c]) == k then 1 else 0)
    {
      Moved(s, t, c, p, k);
    }
  }

  lemma EnterKeepsCounts(max: nat, s: System, c: nat)
    requires c in s.phase && (s.phase[c] == Outside || s.phase[c] == Woken) && !s.shared.isClosed
    requires Accounting(max, s) && NoLostWakeup(max, s)
    ensures var (shared, d) := Enter(max, s.shared);
            var t := System(shared, s.phase[c := PhaseAfter(d)]);
            Accounting(max, t) && NoLostWakeup(max, t) && Count(t, Refusing) == Count(s, Refusing)
  {
    hide Count;
    var (shared, d) := Enter(max, s.shared);
    MovedAll(s, System(shared, s.phase[c := PhaseAfter(d)]), c, PhaseAfter(d));
  }

  lemma EnterKeepsExclusive(max: nat, s: System, c: nat)
    requires c in s.phase && !s.phase[c].Holding? && Exclusive(s)
    ensures var (shared, d) := Enter(max, s.shared);
            Exclusive(System(shared, s.phase[c := PhaseAfter(d)]))
  {
    if !s.shared.isClosed && |s.shared.clients| > 0 {
      var first, rest := s.shared.clients[0], s.shared.clients[1..];
      assert s.shared.clients == [first] + rest;
      assert first.Client? ==> first !in rest;
    }
  }

  lemma GiveBackKeepsCounts(max: nat, s: System, step: Step)
    requires step.GiveBack? && Enabled(s, step) && !s.shared.isClosed
    requires Accounting(max, s) && NoLostWakeup(max, s) && Count(s, Refusing) == 0
    ensures var t := Apply(max, s, step);
            Accounting(max, t) && NoLostWakeup(max, t) && Count(t, Refusing) == 0
  {
    NobodyOfKind(s, step.c, Refusing);
    hide Count;
    GiveBackCounts(max, s, step);
  }

  lemma NobodyOfKind(s: System, c: nat, k: Kind)
    requires c in s.phase && Count(s, k) == 0
    ensures KindOf(s.phase[c]) != k
  {
    assert c !in Callers(s, k);
  }

  lemma GiveBackCounts(max: nat, s: System, step: Step)
    requires step.GiveBack? && Enabled(s, step)
    ensures var t, refused := Apply(max, s, step), s.phase[step.c].Refused?;
            && Count(t, Charged) == Count(s, Charged) - (if refused then 0 else 1)
            && Count(t, Refusing) == Count(s, Refusing) - (if refused then 1 else 0)
            && (step.woken.Some? ==> Count(t, Sleeping) == Count(s, Sleeping) - 1 && Count(t, Waking) == Count(s, Waking) + 1)
            && (step.woken.None? ==> Count(t, Sleeping) == 0 && Count(t, Waking) == Count(s, Waking))
  {
    hide Count;
    var t := s.(phase := s.phase[step.c := Outside]);
    MovedAll(s, t, step.c, Outside);
    if step.woken.Some? {
      MovedAll(t, Apply(max, s, step), step.woken.value, Woken);
    } else {
      MovedAll(s, Apply(max, s, step), step.c, Outside);
    }
  }

  lemma GiveBackKeepsExclusive(max: nat, s: System, step: Step)
    requires step.GiveBack? && Enabled(s, step) && Exclusive(s)
    ensures Exclusive(Apply(max, s, step))
  {
    var t := Apply(max, s, step);
    assert forall d :: d in t.phase && t.phase[d].Holding? ==> d != step.c && t.phase[d] == s.phase[d];
  }

  lemma OpeningKeepsCounts(max: nat, s: System, step: Step)
    requires (step.Opened? || step.OpenFailed?) && Enabled(s, step)
    ensures forall k :: Count(Apply(max, s, step), k) == Count(s, k)
  {
    hide Count;
    var t := Apply(max, s, step);
    MovedAll(s, t, step.c, t.phase[step.c]);
  }

  lemma OpeningKeepsExclusive(max: nat, s: System, step: Step)
    requires (step.Opened? || step.OpenFailed?) && Enabled(s, step) && Exclusive(s)
    ensures Exclusive(Apply(max, s, step))
  {
  }

  lemma OpeningKeepsInv(max: nat, s: System, step: Step)
    requires (step.Opened? || step.OpenFailed?) && Enabled(s, step) && Inv(max, s)
    ensures Inv(max, Apply(max, s, step))
  {
    hide Count, Exclusive;
    OpeningKeepsCounts(max, s, step);
    OpeningKeepsExclusive(max, s, step);
  }

  lemma CloseKeepsInv(max: nat, s: System)
    requires Exclusive(s) && s.shared.capacity <= max
    ensures Inv(max, Apply(max, s, Close))
  {
    assert Callers(Apply(max, s, Close), Sleeping) == {};
  }

  lemma StepKeepsInv(max: nat, s: System, step: Step)
    requires Inv(max, s) && Enabled(s, step)
    ensures Inv(max, Apply(max, s, step))
  {
    hide Count, Exclusive;
    match step
    case Call(c) =>
      EnterKeepsExclusive(max, s, c);
      if s.shared.isClosed { MovedAll(s, Apply(max, s, step), c, Refused); } else { EnterKeepsCounts(max, s, c); }
    case Resume(c) =>
      EnterKeepsExclusive(max, s, c);
      if s.shared.isClosed { MovedAll(s, Apply(max, s, step), c, Refused); } else { EnterKeepsCounts(max, s, c); }
    case Opened(_, _) => OpeningKeepsInv(max, s, step);
    case OpenFailed(_, _) => OpeningKeepsInv(max, s, step);
    case GiveBack(c, _, _) =>
      GiveBackKeepsExclusive(max, s, step);
      if s.shared.isClosed { GiveBackCounts(max, s, step); } else { GiveBackKeepsCounts(max, s, step); }
    case Close => CloseKeepsInv(max, s);
  }

  /** The invariant holds in every state of every interleaving. */
  lemma {:induction false} RunsKeepInv(max: nat, callers: set<nat>, steps: seq<Step>, trace: seq<System>, n: nat)
    requires Run(max, callers, steps, trace) && n < |trace|
    ensures Inv(max, trace[n])
    decreases n
  {
    if n == 0 {
      assert Callers(trace[0], Charged) == {} && Callers(trace[0], Sleeping) == {} && Callers(trace[0], Refusing) == {};
    } else {
      RunsKeepInv(max, callers, steps, trace, n - 1);
      assert Takes(max, trace[n - 1], steps[n - 1], trace[n]);
      StepKeepsInv(max, trace[n - 1], steps[n - 1]);
    }
  }

  /** No lost wakeup and no deadlock, before Close: while a caller sleeps, every
      connection that could be had is promised to a caller already woken; if none is
      woken, all of the pool's connections are in use. */
  lemma NoLostWakeups(max: nat, callers: set<nat>, steps: seq<Step>, trace: seq<System>, n: nat)
    requires Run(max, callers, steps, trace) && n < |trace|
    requires !trace[n].shared.isClosed && Count(trace[n], Sleeping) > 0
    ensures Free(max, trace[n]) <= Count(trace[n], Waking)
    ensures Count(trace[n], Waking) == 0 ==> Count(trace[n], Charged) == max && trace[n].shared.clients == []
    ensures max > 0 ==> Count(trace[n], Waking) + Count(trace[n], Charged) > 0
  {
    RunsKeepInv(max, callers, steps, trace, n);
  }

  /** Before Close the "maximum pool size exceeded" branch of releaseWithout is never
      taken: every connection given back without a fatal error becomes idle. */
  lemma PoolNeverExceeded(max: nat, callers: set<nat>, steps: seq<Step>, trace: seq<System>, n: nat)
    requires Run(max, callers, steps, trace) && n < |trace| && !trace[n].shared.isClosed
    ensures var s := trace[n].shared;
            && 0 <= s.capacity <= max && s.capacity == |s.clients| + Count(trace[n], Charged)
            && forall client, err :: !IsFatal(err) ==> Release(max, s, client, err).clients == s.clients + [client]
  {
    RunsKeepInv(max, callers, steps, trace, n);
  }

  /** A connection is never handed to two callers, before or after Close. */
  lemma ConnectionsAreExclusive(max: nat, callers: set<nat>, steps: seq<Step>, trace: seq<System>, n: nat, c: nat, d: nat)
    requires Run(max, callers, steps, trace) && n < |trace|
    requires c in trace[n].phase && trace[n].phase[c].Holding? && trace[n].phase[c].client.Client?
    requires d in trace[n].phase && trace[n].phase[d] == trace[n].phase[c]
    ensures c == d && trace[n].phase[c].client !in trace[n].shared.clients
  {
    RunsKeepInv(max, callers, steps, trace, n);
  }

  /** Close leaves nobody asleep, then or later. */
  lemma CloseUnblocks(max: nat, callers: set<nat>, steps: seq<Step>, trace: seq<System>, n: nat)
    requires Run(max, callers, steps, trace) && n < |trace| && trace[n].shared.isClosed
    ensures Count(trace[n], Sleeping) == 0
  {
    RunsKeepInv(max, callers, steps, trace, n);
  }

  // ---- Which connection a call gets ----------------------------------------------------------

  ghost predicate IsEntry(step: Step) {
    step.Call? || step.Resume?
  }

  /** What becomes of a call, or of a woken caller, in any run: a new connection is opened
      exactly when none is idle and the pool is not full; an idle one is taken whenever
      there is one, and it is the one idle longest; a caller sleeps exactly when neither
      is possible, and is refused exactly when the pool is closed. */
  lemma EntryOutcome(max: nat, callers: set<nat>, steps: seq<Step>, trace: seq<System>, n: nat)
    requires Run(max, callers, steps, trace) && n < |steps| && IsEntry(steps[n])
    ensures steps[n].c in trace[n + 1].phase
    ensures var s, t, p := trace[n].shared, trace[n + 1].shared, trace[n + 1].phase[steps[n].c];
            && (p.Opening? <==> !s.isClosed && s.clients == [] && s.capacity < max)
            && (p.Holding? <==> !s.isClosed && s.clients != [])
            && (p.Asleep? <==> !s.isClosed && s.clients == [] && s.capacity >= max)
            && (p.Refused? <==> s.isClosed)
            && t.isClosed == s.isClosed
            && t.capacity == (if p.Opening? then s.capacity + 1 else s.capacity)
            && s.clients == (if p.Holding? then [p.client] else []) + t.clients
  {
    assert Takes(max, trace[n], steps[n], trace[n + 1]);
  }

  /** The capacity never rises while a connection is idle. */
  lemma NoneIdleWhenOpening(max: nat, callers: set<nat>, steps: seq<Step>, trace: seq<System>, n: nat)
    requires Run(max, callers, steps, trace) && n < |steps|
    requires trace[n + 1].shared.capacity > trace[n].shared.capacity
    ensures IsEntry(steps[n]) && trace[n].shared.clients == [] && !trace[n].shared.isClosed
  {
    assert Takes(max, trace[n], steps[n], trace[n + 1]);
    if IsEntry(steps[n]) {
      EntryOutcome(max, callers, steps, trace, n);
    }
  }

  // What a step gives back to the pool, and what it takes from it.
  ghost function Gave(s: System, step: Step): seq<Client> {
    if step.GiveBack? && step.c in s.phase && !IsFatal(step.err) then [ClientOf(s.phase[step.c])] else []
  }

  ghost function Took(step: Step, t: System): seq<Client> {
    if IsEntry(step) && step.c in t.phase && t.phase[step.c].Holding? then [t.phase[step.c].client] else []
  }

  // The connections given back so far, and those taken, in order.
  ghost function Given(steps: seq<Step>, trace: seq<System>, n: nat): seq<Client>
    requires n <= |steps| && |trace| == |steps| + 1
  {
    if n == 0 then [] else Given(steps, trace, n - 1) + Gave(trace[n - 1], steps[n - 1])
  }

  ghost function Taken(steps: seq<Step>, trace: seq<System>, n: nat): seq<Client>
    requires n <= |steps| && |trace| == |steps| + 1
  {
    if n == 0 then [] else Taken(steps, trace, n - 1) + Took(steps[n - 1], trace[n])
  }

  // A caller whose connection failed to open gives back none, or nil.
  ghost function ClientOf(p: Phase): Client {
    if p.Holding? then p.client else NilClient
  }

  /** First in, first out: connections leave the pool in the order they were given back,
      and those not yet taken are the idle ones, until Close throws them away. */
  lemma {:induction false} FirstInFirstOut(max: nat, callers: set<nat>, steps: seq<Step>, trace: seq<System>, n: nat)
    requires Run(max, callers, steps, trace) && n < |trace|
    ensures Taken(steps, trace, n) <= Given(steps, trace, n)
    ensures !trace[n].shared.isClosed ==> Given(steps, trace, n) == Taken(steps, trace, n) + trace[n].shared.clients
    decreases n
  {
    if n > 0 {
      hide Inv, Apply, Enabled, Gave, Took;
      var s, step, t := trace[n - 1], steps[n - 1], trace[n];
      FirstInFirstOut(max, callers, steps, trace, n - 1);
      RunsKeepInv(max, callers, steps, trace, n - 1);
      assert Takes(max, s, step, t);
      QueueStep(max, s, step);
      if !t.shared.isClosed {
        Queue(Taken(steps, trace, n - 1), s.shared.clients, Gave(s, step), Took(step, t), t.shared.clients);
      }
    }
  }

  lemma Queue(taken: seq<Client>, idle: seq<Client>, gave: seq<Client>, took: seq<Client>, left: seq<Client>)
    requires idle + gave == took + left
    ensures taken + idle + gave == taken + took + left
  {
    assert taken + idle + gave == taken + (idle + gave);
  }

  // What was idle and is given back is what is taken and idle afterwards.
  lemma QueueStep(max: nat, s: System, step: Step)
    requires Inv(max, s) && Enabled(s, step)
    ensures var t := Apply(max, s, step);
            && (s.shared.isClosed ==> t.shared.isClosed && Took(step, t) == [])
            && (!t.shared.isClosed ==> s.shared.clients + Gave(s, step) == Took(step, t) + t.shared.clients)
            && (t.shared.isClosed && !s.shared.isClosed ==> Took(step, t) == [])
  {
    hide Exclusive, NoLostWakeup, Count, Accounting, Unused;
  }

  // ---- The capacity, before and after Close -----------------------------------------------

  // Idle connections that Close threw away so far.
  ghost function Discarded(steps: seq<Step>, trace: seq<System>, n: nat): nat
    requires n <= |steps| && |trace| == |steps| + 1
  {
    if n == 0 then 0
    else Discarded(steps, trace, n - 1) + (if steps[n - 1].Close? then |trace[n - 1].shared.clients| else 0)
  }

  // Calls refused with end-of-file that were given back so far.
  ghost function RefusalsReturned(steps: seq<Step>, trace: seq<System>, n: nat): nat
    requires n <= |steps| && |trace| == |steps| + 1
  {
    if n == 0 then 0
    else RefusalsReturned(steps, trace, n - 1) + (if IsRefusalReturned(trace[n - 1], steps[n - 1]) then 1 else 0)
  }

  ghost predicate IsRefusalReturned(s: System, step: Step) {
    step.GiveBack? && step.c in s.phase && s.phase[step.c].Refused?
  }

  /** The exact capacity in every state of every run, before and after Close: idle and
      charged connections, plus those that Close threw away without discounting them,
      less the calls refused since, each of which gives back a unit it never took. */
  lemma {:induction false} CapacityLaw(max: nat, callers: set<nat>, steps: seq<Step>, trace: seq<System>, n: nat)
    requires Run(max, callers, steps, trace) && n < |trace|
    ensures trace[n].shared.capacity == |trace[n].shared.clients| + Count(trace[n], Charged)
              + Discarded(steps, trace, n) - RefusalsReturned(steps, trace, n)
    decreases n
  {
    if n == 0 {
      assert Callers(trace[0], Charged) == {};
    } else {
      CapacityLaw(max, callers, steps, trace, n - 1);
      RunsKeepInv(max, callers, steps, trace, n - 1);
      assert Takes(max, trace[n - 1], steps[n - 1], trace[n]);
      CapacityStep(max, trace[n - 1], steps[n - 1]);
    }
  }

  ghost function Excess(s: System): int {
    s.shared.capacity - |s.shared.clients| - Count(s, Charged)
  }

  lemma CapacityStep(max: nat, s: System, step: Step)
    requires Inv(max, s) && Enabled(s, step)
    ensures Excess(Apply(max, s, step)) == Excess(s)
              + (if step.Close? then |s.shared.clients| else 0) - (if IsRefusalReturned(s, step) then 1 else 0)
  {
    hide Exclusive, NoLostWakeup, Unused, Accounting;
    var t := Apply(max, s, step);
    match step
    case Call(c) => hide Count; MovedAll(s, t, c, t.phase[c]);
    case Resume(c) => hide Count; MovedAll(s, t, c, t.phase[c]);
    case Opened(_, _) => hide Count; OpeningKeepsCounts(max, s, step);
    case OpenFailed(_, _) => hide Count; OpeningKeepsCounts(max, s, step);
    case GiveBack(_, _, _) => hide Count; GiveBackCounts(max, s, step);
    case Close => assert Callers(t, Charged) == Callers(s, Charged);
  }

  /** After Close the accounting is lost: a call that gets end-of-file still gives
      back a unit it never took. */
  lemma CapacityAfterClose(max: nat, c: nat) returns (steps: seq<Step>, trace: seq<System>)
    ensures Run(max, {c}, steps, trace) && trace[|steps|].shared.capacity == -1
  {
    var s0 := Initial({c});
    var s1 := Apply(max, s0, Close);
    var s2 := Apply(max, s1, Call(c));
    assert Callers(s2, Sleeping) == {};
    var last := GiveBack(c, Some("EOF"), None);
    steps, trace := [Close, Call(c), last], [s0, s1, s2, Apply(max, s2, last)];
    assert Takes(max, s0, Close, s1) && Takes(max, s1, Call(c), s2) && Takes(max, s2, last, trace[3]);
  }
}

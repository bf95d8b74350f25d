/** The worker registry of app.go under every interleaving of connections, before
    the application closes. Several connections may claim the same device id; each
    lock, each counter update and each router call is a step of its own, and any
    worker may be closed by others at any time, as displaced workers are. */
module Registry {
  import opened Prelude
  import Session

  // ---- The application's methods -----------------------------------------------------

  /** AddWorker's and RemoveWorker's sections under the lock. */
  function AddTo(workers: map<bytes, nat>, u: bytes, w: nat): (map<bytes, nat>, bool) {
    (workers[u := w], u in workers)
  }

  function RemoveFrom(workers: map<bytes, nat>, u: bytes, w: nat): (map<bytes, nat>, bool) {
    if u in workers && workers[u] == w then (workers - {u}, true) else (workers, false)
  }

  class Application {
    var workers: map<bytes, nat>
    var workerCount: int
    var isClosed: bool

    method GetWorker(u: bytes) returns (r: Option<nat>)
      ensures r.Some? <==> u in workers
      ensures r.Some? ==> r.value == workers[u]
    {
      r := if u in workers then Some(workers[u]) else None;
    }

    // Once the application is closed the worker is closed instead, and nothing changes.
    method AddWorker(u: bytes, w: nat) returns (replaced: bool)
      modifies this`workers, this`workerCount
      ensures isClosed ==> !replaced && workers == old(workers)
      ensures !isClosed ==> (workers, replaced) == AddTo(old(workers), u, w)
      ensures workerCount - |workers| == old(workerCount) - |old(workers)|
    {
      if isClosed {
        return false;
      }
      replaced := u in workers;
      workers := workers[u := w];
      if !replaced {
        assert workers.Keys == old(workers).Keys + {u};
        workerCount := workerCount + 1;
      } else {
        assert workers.Keys == old(workers).Keys;
      }
    }

    method RemoveWorker(u: bytes, w: nat) returns (removed: bool)
      modifies this`workers, this`workerCount
      ensures isClosed ==> !removed && workers == old(workers)
      ensures !isClosed ==> (workers, removed) == RemoveFrom(old(workers), u, w)
      ensures workerCount - |workers| == old(workerCount) - |old(workers)|
    {
      if isClosed {
        return false;
      }
      removed := false;
      if u in workers && workers[u] == w {
        workers := workers - {u};
        removed := true;
      }
      if removed {
        assert old(workers).Keys == workers.Keys + {u};
        workerCount := workerCount - 1;
      }
    }

    /** A handshake that finds its device connected closes the previous worker. Undisturbed,
        that frees the id and touches no other; the stored worker's own id is the one it
        is stored under (StoredWorkersAreLive). */
    method DisconnectPrevious(u: bytes) returns (previous: Option<nat>)
      modifies this`workers, this`workerCount
      ensures previous.Some? <==> u in old(workers)
      ensures workers == if isClosed then old(workers) else old(workers) - {u}
      ensures workerCount == old(workerCount) - One(previous.Some? && !isClosed)
    {
      previous := GetWorker(u);
      if previous.Some? {
        var removed := RemoveWorker(u, previous.value);
        if !isClosed {
          assert old(workers).Keys == workers.Keys + {u};
        }
      }
    }
  }

  // ---- Interleavings -------------------------------------------------------------------

  /** Where a connection's handler is: reading messages; named but not yet in the map;
      in the map as a new entry but not yet counted; counted but not yet routed; in its
      final Close before the map section; past it. */
  datatype Phase = Reading | Named | Counting | Routing | Leaving | Gone

  datatype Connection = Connection(uaid: bytes, phase: Phase)

  /** A Close in progress on worker w: the id it read, and how far it is: before the
      map section, or removed but not yet discounted, or not yet unrouted. */
  datatype Stage = Lookup | Discount | Unroute

  datatype Closing = Closing(w: nat, uaid: bytes, stage: Stage, final: bool)

  /** The four multisets record what was returned and called: adds that replaced
      nobody, removes that removed, Router.Register and Router.Unregister calls. */
  datatype World = World(
    workers: map<bytes, nat>,
    count: int,
    conns: map<nat, Connection>,
    closes: map<nat, Closing>,
    added: multiset<bytes>,
    removed: multiset<bytes>,
    routed: multiset<bytes>,
    unrouted: multiset<bytes>)

  datatype Step =
    | Accept(w: nat)
    | Hello(w: nat, hello: Session.Hello, answers: Session.Answers)
    | Redirect(w: nat)
    | Add(w: nat)
    | CountUp(w: nat)
    | Route(w: nat)
    | StartClose(k: nat, w: nat)
    | FinalClose(k: nat, w: nat)
    | Remove(k: nat)
    | CountDown(k: nat)
    | EndRoute(k: nat)

  ghost predicate InPhase(s: World, w: nat, p: Phase) {
    w in s.conns && s.conns[w].phase == p
  }

  ghost predicate InStage(s: World, k: nat, t: Stage) {
    k in s.closes && s.closes[k].stage == t
  }

  ghost predicate Enabled(s: World, step: Step) {
    match step
    case Accept(w) => w !in s.conns
    case Hello(w, hello, answers) =>
      InPhase(s, w, Reading) && Session.Handshake(s.conns[w].uaid, hello, answers).Named?
    case Redirect(w) => InPhase(s, w, Named)
    case Add(w) => InPhase(s, w, Named)
    case CountUp(w) => InPhase(s, w, Counting)
    case Route(w) => InPhase(s, w, Routing)
    case StartClose(k, w) => k !in s.closes && w in s.conns
    case FinalClose(k, w) => k !in s.closes && InPhase(s, w, Reading)
    case Remove(k) => InStage(s, k, Lookup)
    case CountDown(k) => InStage(s, k, Discount)
    case EndRoute(k) => InStage(s, k, Unroute)
  }

  ghost function Move(s: World, w: nat, p: Phase): World
    requires w in s.conns
  {
    s.(conns := s.conns[w := s.conns[w].(phase := p)])
  }

  ghost function Advance(s: World, k: nat, t: Stage): World
    requires k in s.closes
  {
    s.(closes := s.closes[k := s.closes[k].(stage := t)])
  }

  ghost function Apply(s: World, step: Step): World
    requires Enabled(s, step)
  {
    match step
    case Accept(w) => s.(conns := s.conns[w := Connection([], Reading)])
    case Hello(w, hello, answers) =>
      s.(conns := s.conns[w := Connection(Session.Handshake(s.conns[w].uaid, hello, answers).uaid, Named)])
    case Redirect(w) => Move(s, w, Reading)
    case Add(w) =>
      var u := s.conns[w].uaid;
      var (workers, replaced) := AddTo(s.workers, u, w);
      if replaced then Move(s, w, Reading).(workers := workers)
      else Move(s, w, Counting).(workers := workers, added := s.added + multiset{u})
    case CountUp(w) => Move(s, w, Routing).(count := s.count + 1)
    case Route(w) => Move(s, w, Reading).(routed := s.routed + multiset{s.conns[w].uaid})
    case StartClose(k, w) => s.(closes := s.closes[k := Closing(w, s.conns[w].uaid, Lookup, false)])
    case FinalClose(k, w) =>
      Move(s, w, Leaving).(closes := s.closes[k := Closing(w, s.conns[w].uaid, Lookup, true)])
    case Remove(k) => ApplyRemove(s, k)
    case CountDown(k) => Advance(s, k, Unroute).(count := s.count - 1)
    case EndRoute(k) =>
      s.(closes := s.closes - {k}, unrouted := s.unrouted + multiset{s.closes[k].uaid})
  }

  ghost function ApplyRemove(s: World, k: nat): World
    requires InStage(s, k, Lookup)
  {
    var c := s.closes[k];
    var (workers, removed) := RemoveFrom(s.workers, c.uaid, c.w);
    var t := if removed
             then Advance(s, k, Discount).(workers := workers, removed := s.removed + multiset{c.uaid})
             else s.(closes := s.closes - {k});
    if c.final && c.w in t.conns then Move(t, c.w, Gone) else t
  }

  const Start := World(map[], 0, map[], map[], multiset{}, multiset{}, multiset{}, multiset{})

  ghost predicate Takes(s: World, step: Step, t: World) {
    Enabled(s, step) && t == Apply(s, step)
  }

  /** An interleaving: the steps taken and the states passed through. */
  ghost predicate Run(steps: seq<Step>, trace: seq<World>) {
    && |trace| == |steps| + 1 && trace[0] == Start
    && forall i :: 0 <= i < |steps| ==> Takes(trace[i], steps[i], trace[i + 1])
  }

  // ---- Who is in the map -----------------------------------------------------------------

  // A stored worker has the id it is stored under and has not left.
  ghost predicate StoredOk(s: World, u: bytes) {
    u in s.workers && s.workers[u] in s.conns &&
    s.conns[s.workers[u]].uaid == u && s.conns[s.workers[u]].phase != Gone
  }

  // A handler past its hello has an id; a final Close runs for its own worker, with
  // the id that worker has.
  ghost predicate ConnOk(s: World, w: nat)
    requires w in s.conns
  {
    s.conns[w].phase in {Named, Counting, Routing} ==> s.conns[w].uaid != []
  }

  ghost predicate CloseOk(s: World, k: nat)
    requires k in s.closes
  {
    var c := s.closes[k];
    && c.w in s.conns
    && (c.final ==> c.uaid == s.conns[c.w].uaid && s.conns[c.w].phase in {Leaving, Gone})
    && (c.stage != Lookup ==> c.uaid != [])
  }

  ghost predicate MapInv(s: World) {
    && (forall u :: u in s.workers ==> StoredOk(s, u) && u != [])
    && (forall w :: w in s.conns ==> ConnOk(s, w))
    && (forall k :: k in s.closes ==> CloseOk(s, k))
  }

  lemma HelloKeepsMap(s: World, step: Step)
    requires step.Hello? && MapInv(s) && Enabled(s, step)
    ensures MapInv(Apply(s, step))
  {
    Session.HandshakeNamesOnce(s.conns[step.w].uaid, step.hello, step.answers);
    var t := Apply(s, step);
    forall u | u in t.workers ensures StoredOk(t, u) {
      assert StoredOk(s, u);
    }
    forall w | w in t.conns ensures ConnOk(t, w) {
      assert w != step.w ==> ConnOk(s, w);
    }
    forall k | k in t.closes ensures CloseOk(t, k) {
      assert CloseOk(s, k);
    }
  }

  lemma RemoveKeepsMap(s: World, k: nat)
    requires MapInv(s) && InStage(s, k, Lookup)
    ensures MapInv(ApplyRemove(s, k))
  {
    var c, t := s.closes[k], ApplyRemove(s, k);
    assert CloseOk(s, k);
    forall u | u in t.workers ensures StoredOk(t, u) && u != [] {
      assert StoredOk(s, u);
    }
    forall w | w in t.conns ensures ConnOk(t, w) {
      assert ConnOk(s, w);
    }
    forall j | j in t.closes ensures CloseOk(t, j) {
      assert CloseOk(s, j);
    }
  }

  lemma AddKeepsMap(s: World, w: nat)
    requires MapInv(s) && InPhase(s, w, Named)
    ensures MapInv(Apply(s, Add(w)))
  {
    hide Session.Handshake;
    var t := Apply(s, Add(w));
    assert ConnOk(s, w);
    forall u | u in t.workers ensures StoredOk(t, u) && u != [] {
      assert u in s.workers ==> StoredOk(s, u);
    }
    forall v | v in t.conns ensures ConnOk(t, v) {
      assert ConnOk(s, v);
    }
    forall j | j in t.closes ensures CloseOk(t, j) {
      assert CloseOk(s, j);
    }
  }

  lemma OtherStepsKeepMap(s: World, step: Step)
    requires MapInv(s) && Enabled(s, step) && !step.Hello? && !step.Remove? && !step.Add?
    ensures MapInv(Apply(s, step))
  {
    hide Session.Handshake;
    var t := Apply(s, step);
    forall u | u in t.workers ensures StoredOk(t, u) && u != [] {
      assert StoredOk(s, u);
    }
    forall w | w in t.conns ensures ConnOk(t, w) {
      assert w in s.conns ==> ConnOk(s, w);
    }
    forall j | j in t.closes ensures CloseOk(t, j) {
      assert j in s.closes ==> CloseOk(s, j);
    }
  }

  lemma StepKeepsMap(s: World, step: Step)
    requires MapInv(s) && Enabled(s, step)
    ensures MapInv(Apply(s, step))
  {
    if step.Hello? {
      HelloKeepsMap(s, step);
    } else if step.Remove? {
      RemoveKeepsMap(s, step.k);
    } else if step.Add? {
      AddKeepsMap(s, step.w);
    } else {
      OtherStepsKeepMap(s, step);
    }
  }

  // ---- What was counted and routed -----------------------------------------------------------

  // Handlers whose new entry is not yet counted, or whose entry for u is not routed.
  ghost function Uncounted(conns: map<nat, Connection>): set<nat> {
    set w | w in conns && conns[w].phase == Counting
  }

  ghost function Unrouted(conns: map<nat, Connection>, u: bytes): set<nat> {
    set w | w in conns && IsUnrouted(conns[w], u)
  }

  ghost predicate IsUnrouted(c: Connection, u: bytes) {
    c.uaid == u && (c.phase == Counting || c.phase == Routing)
  }

  // Closes that removed an entry and have not yet discounted it, or unrouted it.
  ghost function Undiscounted(closes: map<nat, Closing>): set<nat> {
    set k | k in closes && closes[k].stage == Discount
  }

  ghost function StillRouted(closes: map<nat, Closing>, u: bytes): set<nat> {
    set k | k in closes && IsStillRouted(closes[k], u)
  }

  ghost predicate IsStillRouted(c: Closing, u: bytes) {
    c.uaid == u && c.stage != Lookup
  }

  ghost function One(b: bool): int {
    if b then 1 else 0
  }

  ghost predicate IdBalance(s: World, u: bytes) {
    && s.added[u] == s.removed[u] + One(u in s.workers)
    && s.added[u] == s.routed[u] + |Unrouted(s.conns, u)|
    && s.removed[u] == s.unrouted[u] + |StillRouted(s.closes, u)|
  }

  ghost predicate CountBalance(s: World) {
    s.count + |Uncounted(s.conns)| == |s.workers| + |Undiscounted(s.closes)|
  }

  ghost predicate Balanced(s: World) {
    CountBalance(s) && forall u :: IdBalance(s, u)
  }

  lemma SizeWithout(x: set<nat>, k: nat)
    ensures |x| == |x - {k}| + One(k in x)
  {
    assert k in x ==> x == x - {k} + {k};
    assert k !in x ==> x == x - {k};
  }

  // Sets that differ at most in k differ in size by k alone.
  lemma SameBesides(x: set<nat>, y: set<nat>, k: nat)
    requires forall j :: j != k ==> (j in x <==> j in y)
    ensures |x| + One(k in y) == |y| + One(k in x)
  {
    assert x - {k} == y - {k};
    SizeWithout(x, k);
    SizeWithout(y, k);
  }

  // Changing one connection changes the sizes by that connection.
  lemma UncountedMoved(conns: map<nat, Connection>, w: nat, c: Connection)
    ensures |Uncounted(conns[w := c])| + One(w in conns && conns[w].phase == Counting) ==
            |Uncounted(conns)| + One(c.phase == Counting)
  {
    SameBesides(Uncounted(conns[w := c]), Uncounted(conns), w);
  }

  lemma UnroutedMoved(conns: map<nat, Connection>, w: nat, c: Connection, u: bytes)
    ensures |Unrouted(conns[w := c], u)| + One(w in conns && IsUnrouted(conns[w], u)) ==
            |Unrouted(conns, u)| + One(IsUnrouted(c, u))
  {
    hide IsUnrouted;
    SameBesides(Unrouted(conns[w := c], u), Unrouted(conns, u), w);
  }

  // Changing one close, or ending it.
  lemma CloseMoved(closes: map<nat, Closing>, k: nat, c: Closing, u: bytes)
    ensures |Undiscounted(closes[k := c])| + One(k in closes && closes[k].stage == Discount) ==
            |Undiscounted(closes)| + One(c.stage == Discount)
    ensures |StillRouted(closes[k := c], u)| + One(k in closes && IsStillRouted(closes[k], u)) ==
            |StillRouted(closes, u)| + One(IsStillRouted(c, u))
  {
    hide IsStillRouted;
    SameBesides(Undiscounted(closes[k := c]), Undiscounted(closes), k);
    SameBesides(StillRouted(closes[k := c], u), StillRouted(closes, u), k);
  }

  lemma CloseEnded(closes: map<nat, Closing>, k: nat, u: bytes)
    requires k in closes
    ensures |Undiscounted(closes - {k})| + One(closes[k].stage == Discount) == |Undiscounted(closes)|
    ensures |StillRouted(closes - {k}, u)| + One(IsStillRouted(closes[k], u)) == |StillRouted(closes, u)|
  {
    hide IsStillRouted;
    SameBesides(Undiscounted(closes - {k}), Undiscounted(closes), k);
    SameBesides(StillRouted(closes - {k}, u), StillRouted(closes, u), k);
  }

  lemma MapSizes(workers: map<bytes, nat>, u: bytes, w: nat)
    ensures |workers[u := w]| == |workers| + One(u !in workers)
    ensures |workers - {u}| == |workers| - One(u in workers)
  {
    assert workers[u := w].Keys == workers.Keys + {u};
    assert (workers - {u}).Keys == workers.Keys - {u};
    assert u in workers ==> workers.Keys == workers.Keys - {u} + {u};
  }

  lemma AddKeepsCount(s: World, w: nat)
    requires InPhase(s, w, Named) && CountBalance(s)
    ensures CountBalance(Apply(s, Add(w)))
  {
    hide Uncounted, Unrouted, Undiscounted, StillRouted, Session.Handshake;
    UncountedMoved(s.conns, w, Apply(s, Add(w)).conns[w]);
    MapSizes(s.workers, s.conns[w].uaid, w);
  }

  lemma AddKeepsId(s: World, w: nat, u: bytes)
    requires InPhase(s, w, Named) && IdBalance(s, u)
    ensures IdBalance(Apply(s, Add(w)), u)
  {
    hide Uncounted, Unrouted, Undiscounted, StillRouted, Session.Handshake;
    UnroutedMoved(s.conns, w, Apply(s, Add(w)).conns[w], u);
  }

  lemma HandlerKeepsBalance(s: World, step: Step, u: bytes)
    requires Enabled(s, step) && CountBalance(s) && IdBalance(s, u)
    requires step.Accept? || step.Hello? || step.Redirect? || step.CountUp? || step.Route?
    ensures CountBalance(Apply(s, step)) && IdBalance(Apply(s, step), u)
  {
    hide Uncounted, Unrouted, Undiscounted, StillRouted, Session.Handshake;
    var t := Apply(s, step);
    UncountedMoved(s.conns, step.w, t.conns[step.w]);
    UnroutedMoved(s.conns, step.w, t.conns[step.w], u);
  }

  lemma CloserKeepsBalance(s: World, step: Step, u: bytes)
    requires Enabled(s, step) && CountBalance(s) && IdBalance(s, u)
    requires step.StartClose? || step.FinalClose? || step.CountDown? || step.EndRoute?
    ensures CountBalance(Apply(s, step)) && IdBalance(Apply(s, step), u)
  {
    hide Uncounted, Unrouted, Undiscounted, StillRouted, Session.Handshake;
    var t := Apply(s, step);
    if step.EndRoute? {
      CloseEnded(s.closes, step.k, u);
    } else {
      CloseMoved(s.closes, step.k, t.closes[step.k], u);
    }
    if step.FinalClose? {
      UncountedMoved(s.conns, step.w, t.conns[step.w]);
      UnroutedMoved(s.conns, step.w, t.conns[step.w], u);
    }
  }

  lemma RemoveKeepsCount(s: World, k: nat)
    requires k in s.closes && CloseOk(s, k) && InStage(s, k, Lookup) && CountBalance(s)
    ensures CountBalance(ApplyRemove(s, k))
  {
    hide Uncounted, Unrouted, Undiscounted, StillRouted;
    var c := s.closes[k];
    CloseMoved(s.closes, k, c.(stage := Discount), []);
    CloseEnded(s.closes, k, []);
    UncountedMoved(s.conns, c.w, s.conns[c.w].(phase := Gone));
    MapSizes(s.workers, c.uaid, c.w);
  }

  lemma RemoveKeepsId(s: World, k: nat, u: bytes)
    requires k in s.closes && CloseOk(s, k) && InStage(s, k, Lookup) && IdBalance(s, u)
    ensures IdBalance(ApplyRemove(s, k), u)
  {
    hide Uncounted, Unrouted, Undiscounted, StillRouted;
    var c := s.closes[k];
    CloseMoved(s.closes, k, c.(stage := Discount), u);
    CloseEnded(s.closes, k, u);
    UnroutedMoved(s.conns, c.w, s.conns[c.w].(phase := Gone), u);
  }

  lemma StepKeepsBalance(s: World, step: Step, u: bytes)
    requires MapInv(s) && Enabled(s, step) && CountBalance(s) && IdBalance(s, u)
    ensures CountBalance(Apply(s, step)) && IdBalance(Apply(s, step), u)
  {
    hide CountBalance, IdBalance, CloseOk;
    if step.Remove? {
      RemoveKeepsCount(s, step.k);
      RemoveKeepsId(s, step.k, u);
    } else if step.StartClose? || step.FinalClose? || step.CountDown? || step.EndRoute? {
      CloserKeepsBalance(s, step, u);
    } else if step.Add? {
      AddKeepsCount(s, step.w);
      AddKeepsId(s, step.w, u);
    } else {
      HandlerKeepsBalance(s, step, u);
    }
  }

  /** Both invariants hold in every state of every interleaving. */
  lemma {:induction false} RunsKeepInv(steps: seq<Step>, trace: seq<World>, n: nat)
    requires Run(steps, trace) && n < |trace|
    ensures MapInv(trace[n]) && Balanced(trace[n])
    decreases n
  {
    if n == 0 {
      StartBalanced();
    } else {
      hide Apply, MapInv, CountBalance, IdBalance;
      RunsKeepInv(steps, trace, n - 1);
      var s, step := trace[n - 1], steps[n - 1];
      assert Takes(s, step, trace[n]);
      StepKeepsMap(s, step);
      StepKeepsBalance(s, step, []);
      forall u ensures IdBalance(trace[n], u) {
        StepKeepsBalance(s, step, u);
      }
    }
  }

  lemma StartBalanced()
    ensures MapInv(Start) && Balanced(Start)
  {
    assert Uncounted(Start.conns) == {} && Undiscounted(Start.closes) == {};
    forall u ensures IdBalance(Start, u) {
      assert Unrouted(Start.conns, u) == {} && StillRouted(Start.closes, u) == {};
    }
  }

  // ---- The main results ------------------------------------------------------------------------

  /** For every id, the adds that replaced nobody exceed the removes that removed by
      one if the id is in the map and by none if it is not. */
  lemma AddsAndRemovesAlternate(steps: seq<Step>, trace: seq<World>, n: nat, u: bytes)
    requires Run(steps, trace) && n < |trace|
    ensures trace[n].added[u] == trace[n].removed[u] + One(u in trace[n].workers)
  {
    RunsKeepInv(steps, trace, n);
    assert IdBalance(trace[n], u);
  }

  /** When nothing is in flight the worker count is the size of the map, and every id
      has been registered with the router once more than unregistered exactly when it
      is connected. */
  lemma QuiescentCounts(steps: seq<Step>, trace: seq<World>, n: nat)
    requires Run(steps, trace) && n < |trace|
    requires forall w :: w in trace[n].conns ==> trace[n].conns[w].phase !in {Counting, Routing}
    requires forall k :: k in trace[n].closes ==> trace[n].closes[k].stage == Lookup
    ensures trace[n].count == |trace[n].workers|
    ensures forall u :: trace[n].routed[u] == trace[n].unrouted[u] + One(u in trace[n].workers)
  {
    RunsKeepInv(steps, trace, n);
    var s := trace[n];
    assert Uncounted(s.conns) == {} && Undiscounted(s.closes) == {};
    forall u ensures s.routed[u] == s.unrouted[u] + One(u in s.workers) {
      assert IdBalance(s, u);
      assert Unrouted(s.conns, u) == {} && StillRouted(s.closes, u) == {};
    }
  }

  /** In general the count is off by exactly the counter updates still to come. */
  lemma CountIsMapSize(steps: seq<Step>, trace: seq<World>, n: nat)
    requires Run(steps, trace) && n < |trace|
    ensures trace[n].count == |trace[n].workers| - |Uncounted(trace[n].conns)| + |Undiscounted(trace[n].closes)|
  {
    RunsKeepInv(steps, trace, n);
  }

  /** A stored worker has the id it is stored under, and a connection whose handler has
      finished its own Close is stored nowhere: nothing leaks. */
  lemma StoredWorkersAreLive(steps: seq<Step>, trace: seq<World>, n: nat, u: bytes)
    requires Run(steps, trace) && n < |trace| && u in trace[n].workers
    ensures var w := trace[n].workers[u];
            w in trace[n].conns && trace[n].conns[w].uaid == u && trace[n].conns[w].phase != Gone
  {
    RunsKeepInv(steps, trace, n);
    assert StoredOk(trace[n], u);
  }

  /** A connection that is added takes its id's place in the map, whoever had it, and
      changes no other entry. */
  lemma NewcomerTakesSlot(steps: seq<Step>, trace: seq<World>, n: nat)
    requires Run(steps, trace) && n < |steps| && steps[n].Add?
    ensures steps[n].w in trace[n].conns
    ensures trace[n + 1].workers == trace[n].workers[trace[n].conns[steps[n].w].uaid := steps[n].w]
  {
    assert Takes(trace[n], steps[n], trace[n + 1]);
  }

  /** A Close that finds its own worker under its id takes that entry out and no other;
      one that finds another worker, or none, changes nothing. */
  lemma CloseFreesOwnSlot(steps: seq<Step>, trace: seq<World>, n: nat)
    requires Run(steps, trace) && n < |steps| && steps[n].Remove?
    ensures steps[n].k in trace[n].closes
    ensures var c, before := trace[n].closes[steps[n].k], trace[n].workers;
            trace[n + 1].workers == if c.uaid in before && before[c.uaid] == c.w then before - {c.uaid} else before
  {
    assert Takes(trace[n], steps[n], trace[n + 1]);
  }

  /** Closing a worker, however often and whoever does it, never evicts another: the
      map loses at most the entry that names that worker under its own id. */
  lemma ClosingNeverEvictsAnother(steps: seq<Step>, trace: seq<World>, n: nat, u: bytes)
    requires Run(steps, trace) && n < |steps| && steps[n].Remove? && u in trace[n].workers
    requires u !in trace[n + 1].workers || trace[n + 1].workers[u] != trace[n].workers[u]
    ensures u !in trace[n + 1].workers
    ensures steps[n].k in trace[n].closes && trace[n].closes[steps[n].k].w == trace[n].workers[u]
    ensures trace[n].closes[steps[n].k].uaid == u
  {
    assert Takes(trace[n], steps[n], trace[n + 1]);
  }
}

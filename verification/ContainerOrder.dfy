/** The order in which containers are woken and stopped along the dependency graph.
    Dependencies are handled by concurrent tasks, so a run is described by what each
    task did together with an arbitrary schedule of their effects. */
module ContainerOrder {
  import opened DependencyGraph
  import opened Interleaving

  // ---------------------------------------------------------------- waking

  datatype WakeEvent =
    | SkippedStarting(k: Key)     // a dependent saw that k is being started and went on
    | SeenStarting(k: Key)        // Wake(k) saw that k is being started
    | SeenRunning(k: Key)         // k was running already
    | Started(k: Key, ok: bool)   // a start command and its outcome
    | Unpaused(k: Key, ok: bool)  // an unpause command and its outcome
    | SeenHealthy(k: Key)         // a health check of k succeeded

  datatype WakeFact = Up(k: Key) | Healthy(k: Key) | PassedOver(k: Key)

  function WakeFacts(e: WakeEvent): set<WakeFact> {
    match e
    case SkippedStarting(k) => {Up(k), PassedOver(k)}
    case SeenStarting(k) => {Up(k)}
    case SeenRunning(k) => {Up(k)}
    case Started(k, ok) => if ok then {Up(k)} else {}
    case Unpaused(k, ok) => if ok then {Up(k)} else {}
    case SeenHealthy(k) => {Healthy(k)}
  }

  /** A container may be commanded to run once its dependencies are up and, where its
      settings ask for it, seen healthy or passed over because they were starting. */
  predicate DepsReady(g: Graph, k: Key, seen: set<WakeFact>) {
    k in g && forall i :: 0 <= i < |g[k]| ==> DepReady(g[k][i], seen)
  }

  predicate DepReady(d: Dependency, seen: set<WakeFact>) {
    Up(d.key) in seen && (d.waitHealthy ==> Healthy(d.key) in seen || PassedOver(d.key) in seen)
  }

  function WakeAllowed(g: Graph): (WakeEvent, set<WakeFact>) -> bool {
    (e: WakeEvent, seen: set<WakeFact>) => (e.Started? || e.Unpaused?) ==> DepsReady(g, e.k, seen)
  }

  /** What Wake does itself once its dependencies are awake. */
  datatype OwnWake = AlreadyStarting | AlreadyRunning | StartCommand(ok: bool) | UnpauseCommand(ok: bool)
                   | UnexpectedStatus | NoProvider | NotReached

  /** What one task did for one dependency. */
  datatype DepWake = Skip | Wake(run: WakeRun, health: HealthWait)

  datatype HealthWait = NotAwaited | BecameHealthy | NeverHealthy

  datatype WakeRun = WakeRun(deps: seq<DepWake>, schedule: seq<WakeEvent>, own: OwnWake)

  function OwnEvents(w: Key, own: OwnWake): seq<WakeEvent> {
    match own
    case AlreadyStarting => [SeenStarting(w)]
    case AlreadyRunning => [SeenRunning(w)]
    case StartCommand(ok) => [Started(w, ok)]
    case UnpauseCommand(ok) => [Unpaused(w, ok)]
    case _ => []
  }

  function WakeTrace(w: Key, run: WakeRun): seq<WakeEvent> {
    run.schedule + OwnEvents(w, run.own)
  }

  function DepTrace(d: Key, dep: DepWake): seq<WakeEvent> {
    match dep
    case Skip => [SkippedStarting(d)]
    case Wake(run, health) =>
      WakeTrace(d, run) + (if health.BecameHealthy? then [SeenHealthy(d)] else [])
  }

  function DepTraces(deps: seq<Dependency>, runs: seq<DepWake>): seq<seq<WakeEvent>>
    requires |deps| == |runs|
  {
    seq(|deps|, i requires 0 <= i < |deps| => DepTrace(deps[i].key, runs[i]))
  }

  predicate OwnOk(own: OwnWake) {
    own.AlreadyStarting? || own.AlreadyRunning? || own == StartCommand(true) || own == UnpauseCommand(true)
  }

  /** Whether Wake returned without an error. */
  predicate WakeOk(run: WakeRun) {
    OwnOk(run.own)
  }

  predicate DepOk(dep: DepWake) {
    dep.Skip? || (WakeOk(dep.run) && !dep.health.NeverHealthy?)
  }

  /** The runs of Wake(w): every task of a dependency runs to its end, in any schedule,
      and the container itself is handled only if none of them failed. */
  ghost predicate ValidWake(g: Graph, w: Key, run: WakeRun)
    decreases run
  {
    && w in g && |run.deps| == |g[w]|
    && (forall i :: 0 <= i < |run.deps| ==> ValidDep(g, g[w][i], run.deps[i]))
    && Merges(DepTraces(g[w], run.deps), run.schedule)
    && (run.own.NotReached? <==> exists i :: 0 <= i < |run.deps| && !DepOk(run.deps[i]))
  }

  ghost predicate ValidDep(g: Graph, d: Dependency, dep: DepWake)
    decreases dep
  {
    match dep
    case Skip => true
    case Wake(run, health) =>
      ValidWake(g, d.key, run) && (health.NotAwaited? <==> !d.waitHealthy || !WakeOk(run))
  }

  lemma {:induction false} WakeRunOrdered(g: Graph, w: Key, run: WakeRun)
    requires ValidWake(g, w, run)
    ensures Ordered(WakeAllowed(g), WakeFacts, {}, WakeTrace(w, run))
    ensures WakeOk(run) ==> Up(w) in Established(WakeFacts, WakeTrace(w, run))
    decreases run
  {
    var ts := DepTraces(g[w], run.deps);
    var allowed := WakeAllowed(g);
    forall i | 0 <= i < |ts|
      ensures Ordered(allowed, WakeFacts, {}, ts[i])
    {
      DepOrdered(g, g[w][i], run.deps[i]);
    }
    MergeOrdered(allowed, WakeFacts, {}, ts, run.schedule);
    var seen := Established(WakeFacts, run.schedule);
    if !run.own.NotReached? {
      forall i | 0 <= i < |g[w]|
        ensures DepReady(g[w][i], seen)
      {
        assert DepOk(run.deps[i]);
        DepOrdered(g, g[w][i], run.deps[i]);
        MergeEstablishes(WakeFacts, ts, run.schedule, i);
        assert ts[i] == DepTrace(g[w][i].key, run.deps[i]);
      }
      assert DepsReady(g, w, seen);
    }
    var own := OwnEvents(w, run.own);
    assert {} + seen == seen;
    assert Ordered(allowed, WakeFacts, seen, own) by {
      if own != [] {
        assert own[1..] == [];
        assert allowed(own[0], seen);
      }
    }
    OrderedConcat(allowed, WakeFacts, {}, run.schedule, own);
    EstablishedConcat(WakeFacts, run.schedule, own);
    if WakeOk(run) {
      assert Up(w) in WakeFacts(own[0]);
    }
  }

  lemma {:induction false} DepOrdered(g: Graph, d: Dependency, dep: DepWake)
    requires ValidDep(g, d, dep)
    ensures Ordered(WakeAllowed(g), WakeFacts, {}, DepTrace(d.key, dep))
    ensures DepOk(dep) ==> DepReady(d, Established(WakeFacts, DepTrace(d.key, dep)))
    decreases dep
  {
    match dep
    case Skip =>
      assert DepTrace(d.key, dep)[1..] == [];
    case Wake(run, health) =>
      WakeRunOrdered(g, d.key, run);
      var t1 := WakeTrace(d.key, run);
      var t2 := if health.BecameHealthy? then [SeenHealthy(d.key)] else [];
      assert Ordered(WakeAllowed(g), WakeFacts, {} + Established(WakeFacts, t1), t2) by {
        if t2 != [] {
          assert t2[1..] == [];
        }
      }
      OrderedConcat(WakeAllowed(g), WakeFacts, {}, t1, t2);
      EstablishedConcat(WakeFacts, t1, t2);
      if t2 != [] {
        assert t2[0] == SeenHealthy(d.key);
      }
  }

  predicate BringsUp(e: WakeEvent, k: Key) {
    || e == SkippedStarting(k) || e == SeenStarting(k) || e == SeenRunning(k)
    || e == Started(k, true) || e == Unpaused(k, true)
  }

  predicate Commands(e: WakeEvent) {
    e.Started? || e.Unpaused?
  }

  predicate HealthyBefore(t: seq<WakeEvent>, i: nat, k: Key) {
    exists j :: 0 <= j < i && j < |t| && t[j] == SeenHealthy(k)
  }

  predicate PassedBefore(t: seq<WakeEvent>, i: nat, k: Key) {
    exists j :: 0 <= j < i && j < |t| && t[j] == SkippedStarting(k)
  }

  /** Dependencies first: whatever the schedule and whichever commands fail, a start or
      unpause command comes after every direct dependency of its container is running,
      starting or was commanded successfully; where health is to be waited for, it was seen
      healthy or passed over because it was starting. */
  lemma {:induction false} WakesDependenciesFirst(g: Graph, w: Key, run: WakeRun, i: nat, n: nat)
    requires ValidWake(g, w, run) && i < |WakeTrace(w, run)|
    requires Commands(WakeTrace(w, run)[i]) && WakeTrace(w, run)[i].k in g && n < |g[WakeTrace(w, run)[i].k]|
    ensures var t := WakeTrace(w, run);
            var d := g[t[i].k][n];
            && (exists j :: 0 <= j < i && BringsUp(t[j], d.key))
            && (d.waitHealthy ==> HealthyBefore(t, i, d.key) || PassedBefore(t, i, d.key))
  {
    var t := WakeTrace(w, run);
    var d := g[t[i].k][n];
    WakeRunOrdered(g, w, run);
    OrderedAt(WakeAllowed(g), WakeFacts, {}, t, i);
    var seen := Established(WakeFacts, t[..i]);
    assert {} + seen == seen;
    assert DepReady(d, seen);
    ReadyWasSeen(t, i, d);
  }

  lemma {:induction false} ReadyWasSeen(t: seq<WakeEvent>, i: nat, d: Dependency)
    requires i <= |t| && DepReady(d, Established(WakeFacts, t[..i]))
    ensures exists j :: 0 <= j < i && BringsUp(t[j], d.key)
    ensures d.waitHealthy ==> HealthyBefore(t, i, d.key) || PassedBefore(t, i, d.key)
  {
    var j := EstablishedBy(WakeFacts, t[..i], Up(d.key));
    assert BringsUp(t[j], d.key);
    if d.waitHealthy {
      if Healthy(d.key) in Established(WakeFacts, t[..i]) {
        var h := EstablishedBy(WakeFacts, t[..i], Healthy(d.key));
        assert t[h] == SeenHealthy(d.key);
      } else {
        var h := EstablishedBy(WakeFacts, t[..i], PassedOver(d.key));
        assert t[h] == SkippedStarting(d.key);
      }
    }
  }

  /** What the tasks of a wake touch lies below the container they are for. */
  lemma {:induction false} TasksTouchBelow(g: Graph, w: Key, run: WakeRun, j: nat)
    requires ValidWake(g, w, run) && j < |run.schedule|
    ensures Reaches(g, w, run.schedule[j].k)
    decreases run
  {
    var ts := DepTraces(g[w], run.deps);
    var i, l := MergeMember(ts, run.schedule, j);
    var d, dep := g[w][i], run.deps[i];
    assert ts[i] == DepTrace(d.key, dep);
    assert Edge(g, w, d.key);
    EdgeReaches(g, w, d.key);
    TaskTouchesBelow(g, d, dep, l);
    if run.schedule[j].k != d.key {
      ReachTransitive(g, w, d.key, run.schedule[j].k);
    }
  }

  lemma {:induction false} TaskTraceAt(k: Key, dep: DepWake, l: nat)
    requires l < |DepTrace(k, dep)|
    ensures if dep.Wake? && l < |dep.run.schedule| then DepTrace(k, dep)[l] == dep.run.schedule[l]
            else DepTrace(k, dep)[l].k == k
  {}

  lemma {:induction false} TaskTouchesBelow(g: Graph, d: Dependency, dep: DepWake, l: nat)
    requires ValidDep(g, d, dep) && l < |DepTrace(d.key, dep)|
    ensures var k := DepTrace(d.key, dep)[l].k; k == d.key || Reaches(g, d.key, k)
    decreases dep
  {
    TaskTraceAt(d.key, dep, l);
    if dep.Wake? && l < |dep.run.schedule| {
      TasksTouchBelow(g, d.key, dep.run, l);
    }
  }

  /** If some dependency could not be woken, the container itself is not touched at all. */
  lemma {:induction false} FailedDependencyBlocks(g: Graph, w: Key, run: WakeRun, i: nat)
    requires IsDag(g) && ValidWake(g, w, run) && i < |run.deps| && !DepOk(run.deps[i])
    ensures !WakeOk(run) && forall j :: 0 <= j < |WakeTrace(w, run)| ==> WakeTrace(w, run)[j].k != w
  {
    forall j | 0 <= j < |WakeTrace(w, run)|
      ensures WakeTrace(w, run)[j].k != w
    {
      TasksTouchBelow(g, w, run, j);
    }
  }

  // ---------------------------------------------------------------- stopping

  datatype StopEvent =
    | SeenDown(k: Key)            // k was not running
    | Stopped(k: Key, ok: bool)   // a pause, stop or kill command and its outcome

  datatype OwnStop = NotRunning | StopCommand(ok: bool) | CannotStop

  datatype StopRun = StopRun(own: OwnStop, deps: seq<StopRun>, schedule: seq<StopEvent>)

  function StopFacts(e: StopEvent): set<Key> {
    match e
    case SeenDown(k) => {k}
    case Stopped(k, ok) => if ok then {k} else {}
  }

  function OwnStopEvents(w: Key, own: OwnStop): seq<StopEvent> {
    match own
    case NotRunning => [SeenDown(w)]
    case StopCommand(ok) => [Stopped(w, ok)]
    case CannotStop => []
  }

  function StopTrace(w: Key, run: StopRun): seq<StopEvent> {
    OwnStopEvents(w, run.own) + run.schedule
  }

  function StopTraces(deps: seq<Dependency>, runs: seq<StopRun>): seq<seq<StopEvent>>
    requires |deps| == |runs|
  {
    seq(|deps|, i requires 0 <= i < |deps| => StopTrace(deps[i].key, runs[i]))
  }

  predicate GoesOn(own: OwnStop) {
    own.NotRunning? || own == StopCommand(true)
  }

  /** Whether stopByMethod returned without an error. */
  predicate StopOk(run: StopRun) {
    GoesOn(run.own) && AllStopOk(run.deps)
  }

  predicate AllStopOk(runs: seq<StopRun>) {
    forall i :: 0 <= i < |runs| ==> StopOk(runs[i])
  }

  lemma {:induction false} AllStopOkNext(runs: seq<StopRun>, run: StopRun)
    ensures AllStopOk(runs + [run]) <==> AllStopOk(runs) && StopOk(run)
  {
    assert (runs + [run])[|runs|] == run;
    assert forall i :: 0 <= i < |runs| ==> (runs + [run])[i] == runs[i];
  }

  /** The runs of stopByMethod(w): itself first, then its dependencies side by side. */
  ghost predicate ValidStop(g: Graph, w: Key, run: StopRun)
    decreases run
  {
    && w in g
    && if GoesOn(run.own) then
         && |run.deps| == |g[w]|
         && (forall i :: 0 <= i < |run.deps| ==> ValidStop(g, g[w][i].key, run.deps[i]))
         && Merges(StopTraces(g[w], run.deps), run.schedule)
       else
         run.deps == [] && run.schedule == []
  }

  function StopAllowed(g: Graph, root: Key): (StopEvent, set<Key>) -> bool {
    (e: StopEvent, seen: set<Key>) => e.k == root || exists p :: p in seen && Edge(g, p, e.k)
  }

  lemma {:induction false} StopRunOrdered(g: Graph, w: Key, run: StopRun)
    requires ValidStop(g, w, run)
    ensures Ordered(StopAllowed(g, w), StopFacts, {}, StopTrace(w, run))
    decreases run
  {
    var own := OwnStopEvents(w, run.own);
    var allowed := StopAllowed(g, w);
    assert own == [] || own[1..] == [];
    assert Ordered(allowed, StopFacts, {}, own);
    if GoesOn(run.own) {
      var seen := Established(StopFacts, own);
      assert w in seen by { assert own == [own[0]] + own[1..]; }
      var ts := StopTraces(g[w], run.deps);
      forall i | 0 <= i < |ts|
        ensures Ordered(allowed, StopFacts, seen, ts[i])
      {
        var d := g[w][i].key;
        StopRunOrdered(g, d, run.deps[i]);
        assert Edge(g, w, d);
        Reroot(g, d, w, {}, seen, ts[i]);
      }
      MergeOrdered(allowed, StopFacts, seen, ts, run.schedule);
      assert {} + seen == seen;
      OrderedConcat(allowed, StopFacts, {}, own, run.schedule);
    } else {
      assert StopTrace(w, run) == own;
    }
  }

  /** What is allowed in a run for a dependency is allowed in its dependent's run,
      once the dependent is down. */
  lemma {:induction false} Reroot(g: Graph, d: Key, w: Key, seen: set<Key>, seen': set<Key>, t: seq<StopEvent>)
    requires Ordered(StopAllowed(g, d), StopFacts, seen, t)
    requires seen <= seen' && w in seen' && Edge(g, w, d)
    ensures Ordered(StopAllowed(g, w), StopFacts, seen', t)
    decreases |t|
  {
    if t != [] {
      Reroot(g, d, w, seen + StopFacts(t[0]), seen' + StopFacts(t[0]), t[1..]);
    }
  }

  predicate BringsDown(e: StopEvent, k: Key) {
    e == SeenDown(k) || e == Stopped(k, true)
  }

  /** Dependents first: a container other than the one being stopped is touched only
      after some container that depends on it was found down or was stopped successfully. */
  lemma {:induction false} StopsDependentsFirst(g: Graph, w: Key, run: StopRun, i: nat)
    requires ValidStop(g, w, run) && i < |StopTrace(w, run)| && StopTrace(w, run)[i].k != w
    ensures var t := StopTrace(w, run);
            exists p, j :: 0 <= j < i && BringsDown(t[j], p) && Edge(g, p, t[i].k)
  {
    var t := StopTrace(w, run);
    StopRunOrdered(g, w, run);
    OrderedAt(StopAllowed(g, w), StopFacts, {}, t, i);
    var seen := Established(StopFacts, t[..i]);
    assert {} + seen == seen;
    var p :| p in seen && Edge(g, p, t[i].k);
    var j := EstablishedBy(StopFacts, t[..i], p);
    assert BringsDown(t[j], p);
  }

  predicate DownBefore(t: seq<StopEvent>, i: nat, k: Key) {
    exists j :: 0 <= j < i && j < |t| && BringsDown(t[j], k)
  }

  /** `p` leads from one container to another along dependencies. */
  predicate IsChain(g: Graph, p: seq<Key>) {
    p != [] && forall m :: 0 <= m < |p| - 1 ==> Edge(g, p[m], p[m + 1])
  }

  /** A container is touched only at the end of a chain of containers from the one being
      stopped, all of which are down by then. So nothing is touched that is separated from it
      by containers that could not be stopped. */
  lemma {:induction false} TouchedBelowStopped(g: Graph, w: Key, run: StopRun, i: nat) returns (p: seq<Key>)
    requires ValidStop(g, w, run) && i < |StopTrace(w, run)|
    ensures IsChain(g, p) && p[0] == w && p[|p| - 1] == StopTrace(w, run)[i].k
    ensures forall m :: 0 <= m < |p| - 1 ==> DownBefore(StopTrace(w, run), i, p[m])
    decreases i
  {
    var t := StopTrace(w, run);
    if t[i].k == w {
      p := [w];
    } else {
      StopsDependentsFirst(g, w, run, i);
      var q, j :| 0 <= j < i && BringsDown(t[j], q) && Edge(g, q, t[i].k);
      var p' := TouchedBelowStopped(g, w, run, j);
      p := p' + [t[i].k];
      forall m | 0 <= m < |p| - 1
        ensures Edge(g, p[m], p[m + 1]) && DownBefore(t, i, p[m])
      {
        if m < |p'| - 1 {
          assert Edge(g, p'[m], p'[m + 1]);
          var l :| 0 <= l < j && l < |t| && BringsDown(t[l], p'[m]);
          assert BringsDown(t[l], p[m]);
        }
      }
    }
  }

  // ---------------------------------------------------------------- one task after the other

  /** The tasks of the first `n` dependencies of `w` are done. */
  ghost predicate WokenUpTo(g: Graph, w: Key, n: nat, deps: seq<DepWake>, schedule: seq<WakeEvent>, ok: bool) {
    && w in g && n <= |g[w]| && |deps| == n
    && (forall i :: 0 <= i < n ==> ValidDep(g, g[w][i], deps[i]))
    && Merges(DepTraces(g[w][..n], deps), schedule)
    && ok == AllOk(deps)
  }

  predicate AllOk(deps: seq<DepWake>) {
    forall i :: 0 <= i < |deps| ==> DepOk(deps[i])
  }

  lemma {:induction false} WokenNone(g: Graph, w: Key)
    requires w in g
    ensures WokenUpTo(g, w, 0, [], [], true)
  {
    assert g[w][..0] == [];
    assert DepTraces([], []) == [];
  }

  lemma {:induction false} WokenNext(g: Graph, w: Key, n: nat, deps: seq<DepWake>, schedule: seq<WakeEvent>, ok: bool, dep: DepWake)
    requires WokenUpTo(g, w, n, deps, schedule, ok) && n < |g[w]| && ValidDep(g, g[w][n], dep)
    ensures WokenUpTo(g, w, n + 1, deps + [dep], schedule + DepTrace(g[w][n].key, dep), ok && DepOk(dep))
  {
    var ts, t := DepTraces(g[w][..n], deps), DepTrace(g[w][n].key, dep);
    MergeAppend(ts, schedule, t);
    DepTracesNext(g[w], n, deps, dep);
    AllOkNext(deps, dep);
    assert forall i :: 0 <= i <= n ==> (deps + [dep])[i] == if i < n then deps[i] else dep;
  }

  lemma {:induction false} DepTracesNext(deps: seq<Dependency>, n: nat, runs: seq<DepWake>, dep: DepWake)
    requires n < |deps| && |runs| == n
    ensures DepTraces(deps[..n + 1], runs + [dep]) == DepTraces(deps[..n], runs) + [DepTrace(deps[n].key, dep)]
  {}

  lemma {:induction false} AllOkNext(deps: seq<DepWake>, dep: DepWake)
    ensures AllOk(deps + [dep]) <==> AllOk(deps) && DepOk(dep)
  {
    assert (deps + [dep])[|deps|] == dep;
    assert forall i :: 0 <= i < |deps| ==> (deps + [dep])[i] == deps[i];
  }

  ghost predicate StoppedUpTo(g: Graph, w: Key, n: nat, deps: seq<StopRun>, schedule: seq<StopEvent>, ok: bool) {
    && w in g && n <= |g[w]| && |deps| == n
    && (forall i :: 0 <= i < n ==> ValidStop(g, g[w][i].key, deps[i]))
    && Merges(StopTraces(g[w][..n], deps), schedule)
    && ok == AllStopOk(deps)
  }

  lemma {:induction false} StopTracesNext(all: seq<Dependency>, n: nat, deps: seq<StopRun>, run: StopRun)
    requires n < |all| && |deps| == n
    ensures StopTraces(all[..n + 1], deps + [run]) == StopTraces(all[..n], deps) + [StopTrace(all[n].key, run)]
  {}

  lemma {:induction false} StoppedNext(g: Graph, w: Key, n: nat, deps: seq<StopRun>, schedule: seq<StopEvent>, ok: bool, run: StopRun)
    requires StoppedUpTo(g, w, n, deps, schedule, ok) && n < |g[w]| && ValidStop(g, g[w][n].key, run)
    ensures StoppedUpTo(g, w, n + 1, deps + [run], schedule + StopTrace(g[w][n].key, run), ok && StopOk(run))
  {
    var ts, t := StopTraces(g[w][..n], deps), StopTrace(g[w][n].key, run);
    MergeAppend(ts, schedule, t);
    StopTracesNext(g[w], n, deps, run);
    AllStopOkNext(deps, run);
    assert forall i :: 0 <= i <= n ==> (deps + [run])[i] == if i < n then deps[i] else run;
  }

  lemma {:induction false} StoppedNone(g: Graph, w: Key)
    requires w in g
    ensures StoppedUpTo(g, w, 0, [], [], true)
  {
    assert g[w][..0] == [];
    assert StopTraces([], []) == [];
  }
}

/** How far the order of waking and stopping can be relied on: exact conditions on the
    dependency graph. */
module ContainerLimits {
  import opened DependencyGraph
  import opened Interleaving
  import opened ContainerOrder

  // ---------------------------------------------------------------- dependents before dependencies

  /** Whatever is stopped along with `w`, all its dependents are down first. */
  ghost predicate DependentsDownFirst(g: Graph, w: Key, t: seq<StopEvent>) {
    forall i, p :: 0 <= i < |t| && t[i].k != w && Edge(g, p, t[i].k) ==> DownBefore(t, i, p)
  }

  /** Every container below `w` has one dependent only. */
  ghost predicate SoleDependents(g: Graph, w: Key) {
    forall d, p, q :: Reaches(g, w, d) && Edge(g, p, d) && Edge(g, q, d) ==> p == q
  }

  const CANNOT := StopRun(CannotStop, [], [])

  /** The events of a run that stops the containers of a chain, each successfully. */
  function StoppedAll(p: seq<Key>): seq<StopEvent> {
    seq(|p|, i requires 0 <= i < |p| => Stopped(p[i], true))
  }

  lemma {:induction false} StoppedAllFirst(p: seq<Key>)
    requires p != []
    ensures StoppedAll(p) == [Stopped(p[0], true)] + StoppedAll(p[1..])
  {}

  lemma {:induction false} StopAlone(g: Graph, w: Key) returns (run: StopRun)
    requires Closed(g) && w in g
    ensures ValidStop(g, w, run) && StopTrace(w, run) == [Stopped(w, true)]
  {
    var deps := seq(|g[w]|, i => CANNOT);
    var ts := StopTraces(g[w], deps);
    MergeConcat(ts);
    ConcatEmpty(ts);
    run := StopRun(StopCommand(true), deps, []);
  }

  lemma {:induction false} OnlyTrace(deps: seq<Dependency>, runs: seq<StopRun>, m: nat)
    requires |deps| == |runs| && m < |runs| && forall i :: 0 <= i < |runs| && i != m ==> runs[i] == CANNOT
    ensures Merges(StopTraces(deps, runs), StopTrace(deps[m].key, runs[m]))
  {
    var ts := StopTraces(deps, runs);
    MergeConcat(ts);
    ConcatOne(ts, m);
  }

  lemma {:induction false} StopWithOne(g: Graph, w: Key, m: nat, sub: StopRun) returns (run: StopRun)
    requires Closed(g) && w in g && m < |g[w]| && ValidStop(g, g[w][m].key, sub)
    ensures ValidStop(g, w, run) && StopTrace(w, run) == [Stopped(w, true)] + StopTrace(g[w][m].key, sub)
  {
    var deps := seq(|g[w]|, i => if i == m then sub else CANNOT);
    OnlyTrace(g[w], deps, m);
    run := StopRun(StopCommand(true), deps, StopTrace(g[w][m].key, sub));
  }

  lemma {:induction false} RestIsChain(g: Graph, p: seq<Key>)
    requires IsChain(g, p) && |p| > 1
    ensures Edge(g, p[0], p[1]) && IsChain(g, p[1..])
  {
    assert Edge(g, p[0], p[0 + 1]);
    forall i | 0 <= i < |p[1..]| - 1
      ensures Edge(g, p[1..][i], p[1..][i + 1])
    {
      assert Edge(g, p[i + 1], p[i + 1 + 1]);
    }
  }

  /** Along any chain, a run can stop exactly its containers, one after the other. */
  lemma {:induction false} ChainStops(g: Graph, p: seq<Key>) returns (run: StopRun)
    requires Closed(g) && IsChain(g, p) && p[0] in g
    ensures ValidStop(g, p[0], run) && StopTrace(p[0], run) == StoppedAll(p)
    decreases |p|
  {
    if |p| == 1 {
      run := StopAlone(g, p[0]);
    } else {
      var rest := p[1..];
      RestIsChain(g, p);
      var m :| 0 <= m < |g[p[0]]| && g[p[0]][m].key == p[1];
      var sub := ChainStops(g, rest);
      StoppedAllFirst(p);
      run := StopWithOne(g, p[0], m, sub);
    }
  }

  lemma {:induction false} ChainDoesNotReturn(g: Graph, p: seq<Key>, i: nat, j: nat)
    requires Acyclic(g) && IsChain(g, p) && i < j < |p|
    ensures p[i] != p[j]
  {
    var q := p[i..j + 1];
    forall m | 0 <= m < |q| - 1
      ensures Edge(g, q[m], q[m + 1])
    {
      assert Edge(g, p[i + m], p[i + m + 1]);
    }
    assert IsPath(g, q);
    assert Reaches(g, p[i], p[j]);
  }

  /** With two dependents there is a chain down to the container that leaves one of them out. */
  lemma {:induction false} ChainAround(g: Graph, w: Key, d: Key, p: Key, q: Key) returns (chain: seq<Key>, out: Key)
    requires Acyclic(g) && Reaches(g, w, d) && Edge(g, p, d) && Edge(g, q, d) && p != q
    ensures IsChain(g, chain) && |chain| >= 2 && chain[0] == w && chain[|chain| - 1] == d
    ensures Edge(g, out, d) && out !in chain
  {
    var path :| IsPath(g, path) && path[0] == w && path[|path| - 1] == d;
    var last := path[|path| - 2];
    assert Edge(g, path[|path| - 2], path[|path| - 2 + 1]);
    EdgeReaches(g, p, d);
    EdgeReaches(g, q, d);
    out := if p != last then p else q;
    chain := path;
    if out in path {
      var m :| 0 <= m < |path| && path[m] == out;
      var up := path[..m + 1];
      chain := up + [d];
      forall i | 0 <= i < |chain| - 1
        ensures Edge(g, chain[i], chain[i + 1])
      {
        assert i < m ==> Edge(g, path[i], path[i + 1]);
      }
      forall i | 0 <= i <= m
        ensures path[i] != last
      {
        ChainDoesNotReturn(g, path, i, |path| - 2);
      }
      EdgeReaches(g, last, d);
      out := last;
    }
  }

  /** A shared dependency can be stopped while one of its dependents is not down, in every
      graph and wherever it is shared. */
  lemma {:induction false} SharedDependencyMayStopEarly(g: Graph, w: Key, d: Key, p: Key, q: Key)
    returns (run: StopRun, i: nat, out: Key)
    requires IsDag(g) && Reaches(g, w, d) && Edge(g, p, d) && Edge(g, q, d) && p != q
    ensures ValidStop(g, w, run) && i < |StopTrace(w, run)| && StopTrace(w, run)[i] == Stopped(d, true)
    ensures d != w && Edge(g, out, d) && !DownBefore(StopTrace(w, run), |StopTrace(w, run)|, out)
  {
    ReachedIsWatched(g, w, d);
    var chain;
    chain, out := ChainAround(g, w, d, p, q);
    run := ChainStops(g, chain);
    i := |chain| - 1;
  }

  /** Stopping a container stops every other container only after all of its dependents -
      in every run, if and only if nothing below it is shared. */
  lemma {:induction false} StopOrderIffNothingShared(g: Graph, w: Key)
    requires IsDag(g) && w in g
    ensures (forall run :: ValidStop(g, w, run) ==> DependentsDownFirst(g, w, StopTrace(w, run))) <==> SoleDependents(g, w)
  {
    if SoleDependents(g, w) {
      forall run | ValidStop(g, w, run)
        ensures DependentsDownFirst(g, w, StopTrace(w, run))
      {
        SoleDependentsDownFirst(g, w, run);
      }
    } else {
      var d, p, q :| Reaches(g, w, d) && Edge(g, p, d) && Edge(g, q, d) && p != q;
      var run, i, out := SharedDependencyMayStopEarly(g, w, d, p, q);
      assert !DownBefore(StopTrace(w, run), i, out);
      assert !DependentsDownFirst(g, w, StopTrace(w, run));
    }
  }

  lemma {:induction false} SoleDependentsDownFirst(g: Graph, w: Key, run: StopRun)
    requires ValidStop(g, w, run) && SoleDependents(g, w)
    ensures DependentsDownFirst(g, w, StopTrace(w, run))
  {
    var t := StopTrace(w, run);
    forall i, p | 0 <= i < |t| && t[i].k != w && Edge(g, p, t[i].k)
      ensures DownBefore(t, i, p)
    {
      var chain := TouchedBelowStopped(g, w, run, i);
      assert IsPath(g, chain);
      assert Edge(g, chain[|chain| - 2], chain[|chain| - 2 + 1]);
      assert Reaches(g, w, t[i].k);
    }
  }

  lemma {:induction false} DownIsEstablished(t: seq<StopEvent>, k: Key)
    ensures k in Established(StopFacts, t) <==> DownBefore(t, |t|, k)
  {
    if k in Established(StopFacts, t) {
      var j := EstablishedBy(StopFacts, t, k);
      assert BringsDown(t[j], k);
    }
    if DownBefore(t, |t|, k) {
      var j :| 0 <= j < |t| && j < |t| && BringsDown(t[j], k);
      EventEstablishes(t, j);
    }
  }

  lemma {:induction false} EventEstablishes(t: seq<StopEvent>, j: nat)
    requires j < |t|
    ensures StopFacts(t[j]) <= Established(StopFacts, t)
  {
    if j > 0 {
      EventEstablishes(t[1..], j - 1);
    }
  }

  lemma {:induction false} SuccessEstablishes(g: Graph, w: Key, run: StopRun, d: Key)
    requires ValidStop(g, w, run) && StopOk(run) && AtOrBelow(g, w, d)
    ensures d in Established(StopFacts, StopTrace(w, run))
    decreases run
  {
    var own := OwnStopEvents(w, run.own);
    EstablishedConcat(StopFacts, own, run.schedule);
    if d == w {
      EventEstablishes(own, 0);
    } else {
      var b := FirstStep(g, w, d);
      var i :| 0 <= i < |g[w]| && g[w][i].key == b;
      SuccessEstablishes(g, b, run.deps[i], d);
      var ts := StopTraces(g[w], run.deps);
      MergeEstablishes(StopFacts, ts, run.schedule, i);
      assert ts[i] == StopTrace(b, run.deps[i]);
    }
  }

  /** Success means what it says: if stopping a container reports no error, it and every
      container below it were found down or were stopped. */
  lemma {:induction false} SuccessMeansAllDown(g: Graph, w: Key, run: StopRun, d: Key)
    requires ValidStop(g, w, run) && StopOk(run) && AtOrBelow(g, w, d)
    ensures DownBefore(StopTrace(w, run), |StopTrace(w, run)|, d)
  {
    SuccessEstablishes(g, w, run, d);
    DownIsEstablished(StopTrace(w, run), d);
  }

  // ---------------------------------------------------------------- waiting for health

  /** Every command comes after the dependencies whose health is to be waited for were
      seen healthy. */
  ghost predicate HealthyFirst(g: Graph, t: seq<WakeEvent>) {
    forall i, n :: 0 <= i < |t| && Commands(t[i]) && AwaitsHealth(g, t[i].k, n) ==> HealthyBefore(t, i, g[t[i].k][n].key)
  }

  predicate AwaitsHealth(g: Graph, k: Key, n: int) {
    k in g && 0 <= n < |g[k]| && g[k][n].waitHealthy
  }

  /** No command comes after a dependency to wait for was passed over, and not seen healthy
      by any other task either. */
  ghost predicate PassedAreHealthy(g: Graph, t: seq<WakeEvent>) {
    forall i, n :: 0 <= i < |t| && Commands(t[i]) && AwaitsHealth(g, t[i].k, n) ==>
      PassedBefore(t, i, g[t[i].k][n].key) ==> HealthyBefore(t, i, g[t[i].k][n].key)
  }

  /** In any run, health is waited for exactly up to what was passed over as starting. */
  lemma {:induction false} HealthyFirstIffNotPassedOver(g: Graph, w: Key, run: WakeRun)
    requires ValidWake(g, w, run)
    ensures HealthyFirst(g, WakeTrace(w, run)) <==> PassedAreHealthy(g, WakeTrace(w, run))
  {
    var t := WakeTrace(w, run);
    if PassedAreHealthy(g, t) {
      forall i, n | 0 <= i < |t| && Commands(t[i]) && AwaitsHealth(g, t[i].k, n)
        ensures HealthyBefore(t, i, g[t[i].k][n].key)
      {
        WakesDependenciesFirst(g, w, run, i, n);
      }
    }
  }

  predicate Quiet(t: seq<WakeEvent>) {
    forall j :: 0 <= j < |t| ==> !t[j].SeenHealthy?
  }

  /** `e` happens, and nothing was seen healthy before. */
  predicate QuietUntil(t: seq<WakeEvent>, e: WakeEvent) {
    exists i :: 0 <= i < |t| && t[i] == e && Quiet(t[..i])
  }

  lemma {:induction false} QuietThen(a: seq<WakeEvent>, b: seq<WakeEvent>, e: WakeEvent)
    requires QuietUntil(a, e) || (Quiet(a) && QuietUntil(b, e))
    ensures QuietUntil(a + b, e)
  {
    if QuietUntil(a, e) {
      var i :| 0 <= i < |a| && a[i] == e && Quiet(a[..i]);
      assert (a + b)[..i] == a[..i] && (a + b)[i] == e;
    } else {
      var i :| 0 <= i < |b| && b[i] == e && Quiet(b[..i]);
      assert (a + b)[..|a| + i] == a + b[..i] && (a + b)[|a| + i] == e;
    }
  }

  lemma {:induction false} ConcatQuiet(ts: seq<seq<WakeEvent>>)
    requires forall l :: 0 <= l < |ts| ==> Quiet(ts[l])
    ensures Quiet(Concat(ts))
  {
    if ts != [] {
      ConcatQuiet(ts[..|ts| - 1]);
    }
  }

  lemma {:induction false} ConcatQuietUntil(ts: seq<seq<WakeEvent>>, m: nat, e: WakeEvent)
    requires m < |ts| && QuietUntil(ts[m], e) && forall l :: 0 <= l < |ts| && l != m ==> Quiet(ts[l])
    ensures QuietUntil(Concat(ts), e)
  {
    var init, last := ts[..|ts| - 1], ts[|ts| - 1];
    if m == |init| {
      ConcatQuiet(init);
    } else {
      ConcatQuietUntil(init, m, e);
    }
    QuietThen(Concat(init), last, e);
  }

  /** Tasks that all succeed, one after the other, and what `w` does then. */
  lemma {:induction false} TasksInTurn(g: Graph, w: Key, deps: seq<DepWake>, own: OwnWake)
    requires w in g && |deps| == |g[w]| && !own.NotReached?
    requires forall i :: 0 <= i < |deps| ==> ValidDep(g, g[w][i], deps[i]) && DepOk(deps[i])
    ensures ValidWake(g, w, WakeRun(deps, Concat(DepTraces(g[w], deps)), own))
  {
    MergeConcat(DepTraces(g[w], deps));
  }

  /** A container can be started while all its dependencies are passed over. */
  lemma {:induction false} StartsPassingOver(g: Graph, w: Key) returns (run: WakeRun)
    requires w in g
    ensures ValidWake(g, w, run) && WakeOk(run) && QuietUntil(WakeTrace(w, run), Started(w, true))
  {
    var deps := seq(|g[w]|, i => Skip);
    run := WakeRun(deps, Concat(DepTraces(g[w], deps)), StartCommand(true));
    TasksInTurn(g, w, deps, run.own);
    ConcatQuiet(DepTraces(g[w], deps));
    assert [Started(w, true)][..0] == [] && QuietUntil([Started(w, true)], Started(w, true));
    QuietThen(run.schedule, [Started(w, true)], Started(w, true));
  }

  lemma {:induction false} WakeWithOne(g: Graph, w: Key, m: nat, sub: WakeRun, e: WakeEvent) returns (run: WakeRun)
    requires w in g && m < |g[w]| && ValidWake(g, g[w][m].key, sub) && WakeOk(sub)
    requires QuietUntil(WakeTrace(g[w][m].key, sub), e)
    ensures ValidWake(g, w, run) && WakeOk(run) && QuietUntil(WakeTrace(w, run), e)
  {
    var d := g[w][m];
    var dep := DepWake.Wake(sub, if d.waitHealthy then BecameHealthy else NotAwaited);
    run := WakeOnly(g, w, m, dep);
    QuietThen(WakeTrace(d.key, sub), if d.waitHealthy then [SeenHealthy(d.key)] else [], e);
    SkipsAreQuiet(g, w, m, run.deps);
    ConcatQuietUntil(DepTraces(g[w], run.deps), m, e);
    QuietThen(run.schedule, OwnEvents(w, AlreadyRunning), e);
  }

  /** All dependencies but one are passed over, and `w` turns out to be running. */
  lemma {:induction false} WakeOnly(g: Graph, w: Key, m: nat, dep: DepWake) returns (run: WakeRun)
    requires w in g && m < |g[w]| && ValidDep(g, g[w][m], dep) && DepOk(dep)
    ensures ValidWake(g, w, run) && run.own == AlreadyRunning && run.deps[m] == dep
    ensures forall i :: 0 <= i < |g[w]| && i != m ==> run.deps[i] == Skip
    ensures run.schedule == Concat(DepTraces(g[w], run.deps))
  {
    var deps := seq(|g[w]|, i => if i == m then dep else Skip);
    run := WakeRun(deps, Concat(DepTraces(g[w], deps)), AlreadyRunning);
    TasksInTurn(g, w, deps, run.own);
  }

  lemma {:induction false} SkipsAreQuiet(g: Graph, w: Key, m: nat, deps: seq<DepWake>)
    requires w in g && |deps| == |g[w]| && m < |deps|
    requires forall i :: 0 <= i < |deps| && i != m ==> deps[i] == Skip
    ensures var ts := DepTraces(g[w], deps);
            ts[m] == DepTrace(g[w][m].key, deps[m]) && forall i :: 0 <= i < |ts| && i != m ==> Quiet(ts[i])
  {}

  lemma {:induction false} ChainWakes(g: Graph, p: seq<Key>) returns (run: WakeRun)
    requires IsChain(g, p) && p[|p| - 1] in g
    ensures ValidWake(g, p[0], run) && WakeOk(run)
    ensures QuietUntil(WakeTrace(p[0], run), Started(p[|p| - 1], true))
    decreases |p|
  {
    if |p| == 1 {
      run := StartsPassingOver(g, p[0]);
    } else {
      var rest := p[1..];
      RestIsChain(g, p);
      var m :| 0 <= m < |g[p[0]]| && g[p[0]][m].key == p[1];
      var sub := ChainWakes(g, rest);
      run := WakeWithOne(g, p[0], m, sub, Started(p[|p| - 1], true));
    }
  }

  ghost predicate AtOrBelow(g: Graph, w: Key, k: Key) {
    k == w || Reaches(g, w, k)
  }

  /** Wherever health is to be waited for, a run of Wake starts the container without it. */
  lemma {:induction false} HealthMayBePassedOver(g: Graph, w: Key, k: Key, n: nat) returns (run: WakeRun)
    requires Closed(g) && w in g && AtOrBelow(g, w, k) && AwaitsHealth(g, k, n)
    ensures ValidWake(g, w, run) && WakeOk(run) && !HealthyFirst(g, WakeTrace(w, run))
  {
    var p := ChainTo(g, w, k);
    run := ChainWakes(g, p);
    QuietStartIsEarly(g, WakeTrace(w, run), k, n);
  }

  lemma {:induction false} ChainTo(g: Graph, w: Key, k: Key) returns (p: seq<Key>)
    requires AtOrBelow(g, w, k)
    ensures IsChain(g, p) && p[0] == w && p[|p| - 1] == k
  {
    if k == w {
      p := [w];
    } else {
      p :| IsPath(g, p) && p[0] == w && p[|p| - 1] == k;
    }
  }

  lemma {:induction false} QuietStartIsEarly(g: Graph, t: seq<WakeEvent>, k: Key, n: nat)
    requires QuietUntil(t, Started(k, true)) && AwaitsHealth(g, k, n)
    ensures !HealthyFirst(g, t)
  {
    var i :| 0 <= i < |t| && t[i] == Started(k, true) && Quiet(t[..i]);
    assert Commands(t[i]) && AwaitsHealth(g, t[i].k, n);
    QuietIsNotHealthy(t, i, g[k][n].key);
  }

  lemma {:induction false} QuietIsNotHealthy(t: seq<WakeEvent>, i: nat, k: Key)
    requires i <= |t| && Quiet(t[..i])
    ensures !HealthyBefore(t, i, k)
  {
    assert forall j :: 0 <= j < i ==> t[j] == t[..i][j];
  }

  lemma {:induction false} WakeTouchesBelow(g: Graph, w: Key, run: WakeRun, i: nat)
    requires ValidWake(g, w, run) && i < |WakeTrace(w, run)|
    ensures AtOrBelow(g, w, WakeTrace(w, run)[i].k)
  {
    if i < |run.schedule| {
      TasksTouchBelow(g, w, run, i);
    }
  }

  /** "Wait until healthy" is kept in every run if and only if it is asked for nowhere. */
  lemma {:induction false} HealthIsKeptIffNeverAwaited(g: Graph, w: Key)
    requires IsDag(g) && w in g
    ensures (forall run :: ValidWake(g, w, run) ==> HealthyFirst(g, WakeTrace(w, run))) <==>
            (forall k, n :: AtOrBelow(g, w, k) ==> !AwaitsHealth(g, k, n))
  {
    if k, n :| AtOrBelow(g, w, k) && AwaitsHealth(g, k, n) {
      var run := HealthMayBePassedOver(g, w, k, n);
      assert !HealthyFirst(g, WakeTrace(w, run));
    } else {
      forall run | ValidWake(g, w, run)
        ensures HealthyFirst(g, WakeTrace(w, run))
      {
        forall i | 0 <= i < |WakeTrace(w, run)|
          ensures forall n :: !AwaitsHealth(g, WakeTrace(w, run)[i].k, n)
        {
          WakeTouchesBelow(g, w, run, i);
        }
      }
    }
  }
}

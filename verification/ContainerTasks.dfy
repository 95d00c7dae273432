/** Waking and stopping containers, as the program does it. */
module ContainerTasks {
  import opened Common
  import opened DependencyGraph
  import IdleWatcher
  import opened ContainerOrder

  datatype Health = CheckFailed | Unhealthy | IsHealthy

  /** What the containers and the provider answer, at the time that so many events have
      happened, with the checks that follow one another at that time and the number of ticks
      before the context ends. It is arbitrary. */
  datatype World = World(
    starting: (Key, nat) -> bool, status: (Key, nat) -> IdleWatcher.Status, hasProvider: (Key, nat) -> bool,
    obeys: (Key, nat) -> bool, canStop: (Key, nat) -> bool,
    check: (Key, nat, nat) -> Health, patience: (Key, nat) -> nat)

  /** What Wake does itself is right for the state of the container at that time. */
  predicate RightWake(world: World, w: Key, time: nat, own: OwnWake) {
    var status := world.status(w, time);
    if world.starting(w, time) then own == AlreadyStarting
    else if status.Running? then own == AlreadyRunning
    else if !world.hasProvider(w, time) then own == NoProvider
    else if status.Stopped? then own == StartCommand(world.obeys(w, time))
    else if status.Paused? then own == UnpauseCommand(world.obeys(w, time))
    else own == UnexpectedStatus
  }

  /** What stopByMethod does itself is. */
  predicate RightStop(world: World, w: Key, time: nat, own: OwnStop) {
    if !world.status(w, time).Running? then own == NotRunning
    else if !world.canStop(w, time) then own == CannotStop
    else own == StopCommand(world.obeys(w, time))
  }

  /** Some check finds the container healthy before the context ends, and all before that one
      only found that it was not yet. */
  ghost predicate BecomesHealthy(world: World, k: Key, time: nat) {
    exists n: nat :: n <= world.patience(k, time) && HealthyAtCheck(world, k, time, n)
  }

  ghost predicate HealthyAtCheck(world: World, k: Key, time: nat, n: nat) {
    && world.check(k, time, n).IsHealthy?
    && forall m :: 0 <= m < n ==> world.check(k, time, m).Unhealthy?
  }

  /** Wake and stopByMethod with the tasks run one after the other. On an acyclic graph both
      terminate, and what they do is one of the runs described above. */
  class WakeController {
    const graph: Graph
    const world: World
    var wakeLog: seq<WakeEvent>
    var stopLog: seq<StopEvent>

    ghost predicate Valid() {
      IsDag(graph)
    }

    method Wake(w: Key) returns (ok: bool, ghost run: WakeRun)
      requires Valid() && w in graph
      modifies this`wakeLog
      ensures ValidWake(graph, w, run) && ok == WakeOk(run)
      ensures wakeLog == old(wakeLog) + WakeTrace(w, run)
      ensures !run.own.NotReached? ==> RightWake(world, w, |old(wakeLog)| + |run.schedule|, run.own)
      decreases Rank(graph, w), 2
    {
      var depsOk;
      ghost var deps, schedule;
      depsOk, deps, schedule := WakeDependencies(w);
      assert graph[w][..|graph[w]|] == graph[w];
      if !depsOk {
        return false, WakeRun(deps, schedule, NotReached);
      }
      if world.starting(w, |wakeLog|) {
        wakeLog := wakeLog + [SeenStarting(w)];
        AppendAssociates(old(wakeLog), schedule, [SeenStarting(w)]);
        return true, WakeRun(deps, schedule, AlreadyStarting);
      }
      ghost var own;
      ok, own := WakeIfStopped(w);
      AppendAssociates(old(wakeLog), schedule, OwnEvents(w, own));
      run := WakeRun(deps, schedule, own);
    }

    /** A container that runs is left alone; otherwise the command that fits its status is
        issued, once, and its outcome reported. */
    method WakeIfStopped(w: Key) returns (ok: bool, ghost own: OwnWake)
      modifies this`wakeLog
      ensures ok == OwnOk(own) && wakeLog == old(wakeLog) + OwnEvents(w, own)
      ensures !world.starting(w, |old(wakeLog)|) ==> RightWake(world, w, |old(wakeLog)|, own)
      ensures var status, hasProvider := world.status(w, |old(wakeLog)|), world.hasProvider(w, |old(wakeLog)|);
              && (own.AlreadyRunning? <==> status.Running?)
              && (own.StartCommand? <==> status.Stopped? && hasProvider)
              && (own.UnpauseCommand? <==> status.Paused? && hasProvider)
              && (own.UnexpectedStatus? <==> status.Error? && hasProvider)
              && (own.NoProvider? <==> !status.Running? && !hasProvider)
    {
      var time := |wakeLog|;
      if world.status(w, time).Running? {
        wakeLog := wakeLog + [SeenRunning(w)];
        return true, AlreadyRunning;
      }
      if !world.hasProvider(w, time) {
        return false, NoProvider;
      }
      ok := world.obeys(w, time);
      match world.status(w, time) {
        case Stopped =>
          wakeLog := wakeLog + [Started(w, ok)];
          own := StartCommand(ok);
        case Paused =>
          wakeLog := wakeLog + [Unpaused(w, ok)];
          own := UnpauseCommand(ok);
        case _ =>
          return false, UnexpectedStatus;
      }
    }

    method WakeDependencies(w: Key)
      returns (ok: bool, ghost deps: seq<DepWake>, ghost schedule: seq<WakeEvent>)
      requires Valid() && w in graph
      modifies this`wakeLog
      ensures WokenUpTo(graph, w, |graph[w]|, deps, schedule, ok)
      ensures wakeLog == old(wakeLog) + schedule
      decreases Rank(graph, w), 1
    {
      ok, deps, schedule := true, [], [];
      WokenNone(graph, w);
      for i := 0 to |graph[w]|
        invariant WokenUpTo(graph, w, i, deps, schedule, ok)
        invariant wakeLog == old(wakeLog) + schedule
      {
        ok, deps, schedule := WakeNext(w, i, ok, deps, schedule, old(wakeLog));
      }
    }

    method WakeNext(w: Key, i: nat, ok: bool, ghost deps: seq<DepWake>, ghost schedule: seq<WakeEvent>,
                    ghost before: seq<WakeEvent>)
      returns (ok': bool, ghost deps': seq<DepWake>, ghost schedule': seq<WakeEvent>)
      requires Valid() && w in graph && i < |graph[w]|
      requires WokenUpTo(graph, w, i, deps, schedule, ok) && wakeLog == before + schedule
      modifies this`wakeLog
      ensures WokenUpTo(graph, w, i + 1, deps', schedule', ok') && wakeLog == before + schedule'
      decreases Rank(graph, w), 1, 0
    {
      var depOk;
      ghost var dep;
      depOk, dep := WakeDependency(w, i);
      WokenNext(graph, w, i, deps, schedule, ok, dep);
      AppendAssociates(before, schedule, DepTrace(graph[w][i].key, dep));
      deps', schedule' := deps + [dep], schedule + DepTrace(graph[w][i].key, dep);
      ok' := ok && depOk;
    }

    method WakeDependency(w: Key, i: nat) returns (ok: bool, ghost dep: DepWake)
      requires Valid() && w in graph && i < |graph[w]|
      modifies this`wakeLog
      ensures ValidDep(graph, graph[w][i], dep) && ok == DepOk(dep)
      ensures wakeLog == old(wakeLog) + DepTrace(graph[w][i].key, dep)
      ensures dep.Skip? <==> world.starting(graph[w][i].key, |old(wakeLog)|)
      ensures dep.Wake? && !dep.health.NotAwaited? ==>
                var time := |old(wakeLog)| + |WakeTrace(graph[w][i].key, dep.run)|;
                dep.health.BecameHealthy? <==> BecomesHealthy(world, graph[w][i].key, time)
      decreases Rank(graph, w), 0
    {
      var d := graph[w][i];
      if world.starting(d.key, |wakeLog|) {
        wakeLog := wakeLog + [SkippedStarting(d.key)];
        return true, Skip;
      }
      assert Edge(graph, w, d.key);
      RankShrinks(graph, w, d.key);
      ghost var run;
      ok, run := Wake(d.key);
      if !ok || !d.waitHealthy {
        return ok, DepWake.Wake(run, NotAwaited);
      }
      ok := AwaitHealthy(d.key);
      if ok {
        wakeLog := wakeLog + [SeenHealthy(d.key)];
      }
      dep := DepWake.Wake(run, if ok then BecameHealthy else NeverHealthy);
    }

    /** Checks at once and then at every tick, until the container is healthy, a check fails
        or the context ends. */
    method AwaitHealthy(k: Key) returns (ok: bool)
      ensures ok <==> BecomesHealthy(world, k, |wakeLog|)
    {
      var time := |wakeLog|;
      for tick := 0 to world.patience(k, time) + 1
        invariant forall m :: 0 <= m < tick ==> world.check(k, time, m).Unhealthy?
      {
        var h := world.check(k, time, tick);
        if h.IsHealthy? {
          assert HealthyAtCheck(world, k, time, tick);
          return true;
        }
        if h.CheckFailed? {
          return false;
        }
      }
      return false;
    }

    method StopByMethod(w: Key) returns (ok: bool, ghost run: StopRun)
      requires Valid() && w in graph
      modifies this`stopLog
      ensures ValidStop(graph, w, run)
      ensures stopLog == old(stopLog) + StopTrace(w, run)
      ensures ok == StopOk(run) && RightStop(world, w, |old(stopLog)|, run.own)
      decreases Rank(graph, w), 1
    {
      var time := |stopLog|;
      ghost var own := NotRunning;
      if !world.status(w, time).Running? {
        stopLog := stopLog + [SeenDown(w)];
      } else {
        if !world.canStop(w, time) {
          return false, StopRun(CannotStop, [], []);
        }
        var stopped := world.obeys(w, time);
        stopLog := stopLog + [Stopped(w, stopped)];
        if !stopped {
          return false, StopRun(StopCommand(false), [], []);
        }
        own := StopCommand(true);
      }
      ghost var deps, schedule;
      ok, deps, schedule := StopDependencies(w);
      assert graph[w][..|graph[w]|] == graph[w];
      AppendAssociates(old(stopLog), OwnStopEvents(w, own), schedule);
      run := StopRun(own, deps, schedule);
    }

    method StopDependencies(w: Key) returns (ok: bool, ghost deps: seq<StopRun>, ghost schedule: seq<StopEvent>)
      requires Valid() && w in graph
      modifies this`stopLog
      ensures StoppedUpTo(graph, w, |graph[w]|, deps, schedule, ok)
      ensures stopLog == old(stopLog) + schedule
      decreases Rank(graph, w), 0
    {
      ok, deps, schedule := true, [], [];
      StoppedNone(graph, w);
      for i := 0 to |graph[w]|
        invariant StoppedUpTo(graph, w, i, deps, schedule, ok)
        invariant stopLog == old(stopLog) + schedule
      {
        ok, deps, schedule := StopNext(w, i, ok, deps, schedule, old(stopLog));
      }
    }

    method StopNext(w: Key, i: nat, ok: bool, ghost deps: seq<StopRun>, ghost schedule: seq<StopEvent>,
                    ghost before: seq<StopEvent>)
      returns (ok': bool, ghost deps': seq<StopRun>, ghost schedule': seq<StopEvent>)
      requires Valid() && w in graph && i < |graph[w]|
      requires StoppedUpTo(graph, w, i, deps, schedule, ok) && stopLog == before + schedule
      modifies this`stopLog
      ensures StoppedUpTo(graph, w, i + 1, deps', schedule', ok') && stopLog == before + schedule'
      decreases Rank(graph, w), 0, 0
    {
      var key := graph[w][i].key;
      assert Edge(graph, w, key);
      RankShrinks(graph, w, key);
      var depOk;
      ghost var run;
      depOk, run := StopByMethod(key);
      StoppedNext(graph, w, i, deps, schedule, ok, run);
      AppendAssociates(before, schedule, StopTrace(key, run));
      deps', schedule' := deps + [run], schedule + StopTrace(key, run);
      ok' := ok && depOk;
    }
  }
}

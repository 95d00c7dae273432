/** The state of one idle-watched container, driven by container events, health ticks
    and reloads. */
module IdleWatcher {
  import opened Common

  datatype Status = Error | Running | Paused | Stopped

  /** `startedAt` is set while the container is being started; `healthTries` counts the
      checks that found it not ready yet. */
  datatype ContainerState = ContainerState(
    status: Status, ready: bool, err: Option<string>, startedAt: Option<int>, healthTries: nat)

  datatype HealthStatus = StatusError | StatusHealthy | StatusStarting | StatusNapping

  datatype Action = Create | Start | Unpause | Kill | Stop | Die | Pause | Destroy | ForceReload | Other

  predicate IsStart(a: Action) {
    a.Create? || a.Start? || a.Unpause?
  }

  predicate IsStop(a: Action) {
    a.Kill? || a.Stop? || a.Die?
  }

  datatype Check = CheckError(message: string) | Healthy | Unhealthy

  datatype Input =
    | Event(action: Action, now: int)
    | HealthTick(hasHost: bool, now: int, check: Check)
    | IdleTick
    | Reload(status: Status)   // the watcher is set up again with the status the provider reports

  const TIMED_OUT := "container failed to become ready"

  /** The watcher: its container's state, whether the health ticker runs, and whether the
      container still exists. */
  datatype State = State(container: ContainerState, ticking: bool, alive: bool)

  function Fresh(status: Status): ContainerState {
    ContainerState(status, false, None, None, 0)
  }

  function Initial(status: Status): State {
    State(Fresh(status), true, true)
  }

  /** The provider never reports an error status without failing. */
  predicate Reported(status: Status) {
    !status.Error?
  }

  /** Whether the container has been starting for longer than the wake timeout. */
  predicate TooLate(c: ContainerState, now: int, wakeTimeout: int) {
    c.startedAt.Some? && now - c.startedAt.value > wakeTimeout
  }

  /** One health check of a running container that is not ready. */
  function Checked(c: ContainerState, hasHost: bool, now: int, check: Check, wakeTimeout: int): ContainerState {
    if !hasHost then c
    else if TooLate(c, now, wakeTimeout) then ContainerState(Error, false, Some(TIMED_OUT), None, 0)
    else match check
      case CheckError(message) => ContainerState(Error, false, Some(message), None, 0)
      case Healthy => ContainerState(Running, true, None, None, 0)
      case Unhealthy => c.(ready := false, healthTries := c.healthTries + 1)
  }

  function Step(s: State, input: Input, wakeTimeout: int): State {
    if !s.alive then s
    else match input
      case Event(action, now) =>
        if action.Destroy? then s.(alive := false)
        else if IsStart(action) then State(ContainerState(Running, false, None, Some(now), 0), true, true)
        else if IsStop(action) then State(Fresh(Stopped), false, true)
        else if action.Pause? then State(Fresh(Paused), false, true)
        else s
      case HealthTick(hasHost, now, check) =>
        if s.ticking && s.container.status.Running? && !s.container.ready then
          var c := Checked(s.container, hasHost, now, check, wakeTimeout);
          State(c, !(c.ready || c.err.Some?), true)
        else s
      case IdleTick => s
      case Reload(status) => s.(container := Fresh(status))
  }

  /** What every state of a container satisfies. */
  predicate Consistent(c: ContainerState) {
    && (c.ready ==> c.status.Running? && c.err.None? && c.startedAt.None?)
    && (c.err.Some? <==> c.status.Error?)
    && (c.startedAt.Some? || c.healthTries > 0 ==> c.status.Running? && !c.ready)
  }

  class Watcher {
    const wakeTimeout: int
    var container: ContainerState
    var ticking: bool
    var alive: bool
    ghost const first: Status            // the status reported when the watcher was set up
    ghost var history: seq<Input>        // all that has been handled since

    ghost function Abstract(): State
      reads this
    {
      State(container, ticking, alive)
    }

    /** The state is the one the whole history leads to. */
    ghost predicate Valid()
      reads this
    {
      && Reported(first) && AllPossible(history)
      && Abstract() == Run(Initial(first), history, wakeTimeout)
    }

    constructor (status: Status, wakeTimeout: int)
      requires Reported(status)
      ensures Valid() && first == status && history == [] && this.wakeTimeout == wakeTimeout
    {
      container, ticking, alive := Fresh(status), true, true;
      this.wakeTimeout := wakeTimeout;
      first, history := status, [];
    }

    method SetReady()
      modifies this`container
      ensures Consistent(container) && container == ContainerState(Running, true, None, None, 0)
    {
      container := ContainerState(Running, true, None, None, 0);
    }

    method SetStarting(now: int)
      modifies this`container
      ensures Consistent(container) && container == ContainerState(Running, false, None, Some(now), 0)
    {
      container := ContainerState(Running, false, None, Some(now), 0);
    }

    method SetNapping(status: Status)
      requires Reported(status)
      modifies this`container
      ensures Consistent(container) && container == Fresh(status)
    {
      container := Fresh(status);
    }

    method SetError(err: string)
      modifies this`container
      ensures Consistent(container) && container == ContainerState(Error, false, Some(err), None, 0)
    {
      container := ContainerState(Error, false, Some(err), None, 0);
    }

    method CheckUpdateState(hasHost: bool, now: int, check: Check) returns (ready: bool, failed: bool)
      requires Consistent(container) && container.status.Running? && !container.ready
      modifies this`container
      ensures Consistent(container) && container == Checked(old(container), hasHost, now, check, wakeTimeout)
      ensures ready == container.ready && failed == container.err.Some?
    {
      if !hasHost {
        return false, false;
      }
      var state := container;
      if state.startedAt.Some? {
        var elapsed := now - state.startedAt.value;
        if elapsed > wakeTimeout {
          SetError(TIMED_OUT);
          return false, true;
        }
      }
      match check {
        case CheckError(message) =>
          SetError(message);
          return false, true;
        case Healthy =>
          SetReady();
          return true, false;
        case Unhealthy =>
          container := ContainerState(state.status, false, state.err, state.startedAt, state.healthTries + 1);
          return false, false;
      }
    }

    /** One round of the event loop, or a reload. */
    method Handle(input: Input)
      requires Valid() && alive && Possible(input)
      modifies this`container, this`ticking, this`alive, this`history
      ensures Valid() && history == old(history) + [input]
    {
      EveryStateIsConsistent(first, history, wakeTimeout);
      assert (history + [input])[..|history|] == history;
      history := history + [input];
      match input {
        case Event(action, now) =>
          if action.Destroy? {
            alive := false;
          } else if action.ForceReload? {
          } else if IsStart(action) {
            SetStarting(now);
            ticking := true;
          } else if IsStop(action) {
            SetNapping(Stopped);
            ticking := false;
          } else if action.Pause? {
            SetNapping(Paused);
            ticking := false;
          }
        case HealthTick(hasHost, now, check) =>
          if ticking && container.status.Running? && !container.ready {
            var ready, failed := CheckUpdateState(hasHost, now, check);
            if failed || ready {
              ticking := false;
            }
          }
        case IdleTick =>
        case Reload(status) =>
          container := Fresh(status);
      }
    }

    method Status() returns (h: HealthStatus)
      requires Valid()
      ensures h == StatusHealthy <==> container.ready
      ensures h == StatusError <==> container.status.Error?
      ensures h == StatusNapping <==> container.status.Paused? || container.status.Stopped?
      ensures h == StatusStarting <==> container.status.Running? && !container.ready
    {
      EveryStateIsConsistent(first, history, wakeTimeout);
      if container.err.Some? {
        return StatusError;
      }
      if container.ready {
        return StatusHealthy;
      }
      return if container.status.Running? then StatusStarting else StatusNapping;
    }
  }

  // ---------------------------------------------------------------- over whole runs

  predicate Possible(input: Input) {
    input.Reload? ==> Reported(input.status)
  }

  function Run(s: State, inputs: seq<Input>, wakeTimeout: int): State {
    if inputs == [] then s else Step(Run(s, inputs[..|inputs| - 1], wakeTimeout), inputs[|inputs| - 1], wakeTimeout)
  }

  predicate AllPossible(inputs: seq<Input>) {
    forall i :: 0 <= i < |inputs| ==> Possible(inputs[i])
  }

  lemma {:induction false} StepKeepsConsistent(s: State, input: Input, wakeTimeout: int)
    requires Consistent(s.container) && Possible(input)
    ensures Consistent(Step(s, input, wakeTimeout).container)
  {}

  /** Every reachable state is consistent. */
  lemma {:induction false} EveryStateIsConsistent(status: Status, inputs: seq<Input>, wakeTimeout: int)
    requires Reported(status) && AllPossible(inputs)
    ensures Consistent(Run(Initial(status), inputs, wakeTimeout).container)
  {
    if inputs != [] {
      EveryStateIsConsistent(status, inputs[..|inputs| - 1], wakeTimeout);
      StepKeepsConsistent(Run(Initial(status), inputs[..|inputs| - 1], wakeTimeout), inputs[|inputs| - 1], wakeTimeout);
    }
  }

  // ---------------------------------------------------------------- what a history leads to

  predicate Starts(input: Input) {
    input.Event? && IsStart(input.action)
  }

  predicate PutsDown(input: Input) {
    input.Event? && (IsStop(input.action) || input.action.Pause?)
  }

  /** Inputs that replace the container's state whatever it was. */
  predicate Sets(input: Input) {
    Starts(input) || PutsDown(input) || input.Reload?
  }

  predicate Destroys(input: Input) {
    input.Event? && input.action.Destroy?
  }

  predicate NoneDestroys(inputs: seq<Input>) {
    forall i :: 0 <= i < |inputs| ==> !Destroys(inputs[i])
  }

  predicate NoneSets(inputs: seq<Input>, after: int)
    requires after >= -1
  {
    forall i :: after < i < |inputs| ==> !Sets(inputs[i])
  }

  /** The last input that replaced the state, or -1. */
  function LastSet(inputs: seq<Input>): (k: int)
    ensures -1 <= k < |inputs|
    ensures k >= 0 ==> Sets(inputs[k])
    ensures NoneSets(inputs, k)
  {
    if inputs == [] then -1
    else if Sets(inputs[|inputs| - 1]) then |inputs| - 1
    else LastSet(inputs[..|inputs| - 1])
  }

  /** What an input that replaces the state replaces it by. */
  function SetTo(input: Input): ContainerState
    requires Sets(input)
  {
    if input.Reload? then Fresh(input.status)
    else if Starts(input) then ContainerState(Running, false, None, Some(input.now), 0)
    else Fresh(if input.action.Pause? then Paused else Stopped)
  }

  /** The state as it was last replaced, before any health check. */
  function Base(status: Status, inputs: seq<Input>): ContainerState {
    var k := LastSet(inputs);
    if k < 0 then Fresh(status) else SetTo(inputs[k])
  }

  predicate HostTick(input: Input) {
    input.HealthTick? && input.hasHost
  }

  /** Whether a check of a container in state `base` settles what becomes of it. */
  predicate Concludes(base: ContainerState, input: Input, wakeTimeout: int) {
    base.status.Running? && HostTick(input) && (TooLate(base, input.now, wakeTimeout) || !input.check.Unhealthy?)
  }

  predicate StopsTicker(status: Status, inputs: seq<Input>, c: nat, wakeTimeout: int)
    requires c < |inputs|
  {
    PutsDown(inputs[c]) || Concludes(Base(status, inputs[..c]), inputs[c], wakeTimeout)
  }

  /** Nothing checks the container's health any more: the container was put down or a
      check was conclusive, and it has not been started since. */
  predicate Unchecked(status: Status, inputs: seq<Input>, wakeTimeout: int) {
    exists c :: 0 <= c < |inputs| && StopsTicker(status, inputs, c, wakeTimeout) &&
      forall m :: c < m < |inputs| ==> !Starts(inputs[m])
  }

  /** The check at `c` settled the present state: it was made, it was conclusive, and the
      state has not been replaced since. */
  predicate SettledAt(status: Status, inputs: seq<Input>, c: nat, wakeTimeout: int) {
    && c < |inputs| && NoneSets(inputs, c)
    && Concludes(Base(status, inputs[..c]), inputs[c], wakeTimeout)
    && !Unchecked(status, inputs[..c], wakeTimeout)
  }

  ghost predicate Settled(status: Status, inputs: seq<Input>, wakeTimeout: int) {
    exists c: nat :: SettledAt(status, inputs, c, wakeTimeout)
  }

  function Outcome(base: ContainerState, tick: Input, wakeTimeout: int): ContainerState
    requires HostTick(tick)
  {
    if TooLate(base, tick.now, wakeTimeout) then ContainerState(Error, false, Some(TIMED_OUT), None, 0)
    else if tick.check.CheckError? then ContainerState(Error, false, Some(tick.check.message), None, 0)
    else ContainerState(Running, true, None, None, 0)
  }

  /** How many checks there were since the state was last replaced. */
  function Tries(inputs: seq<Input>): nat {
    if inputs == [] || Sets(inputs[|inputs| - 1]) then 0
    else Tries(inputs[..|inputs| - 1]) + if HostTick(inputs[|inputs| - 1]) then 1 else 0
  }

  lemma {:induction false} UncheckedNext(status: Status, inputs: seq<Input>, wakeTimeout: int)
    requires inputs != []
    ensures var n := |inputs| - 1;
            Unchecked(status, inputs, wakeTimeout) <==>
              || StopsTicker(status, inputs, n, wakeTimeout)
              || (!Starts(inputs[n]) && Unchecked(status, inputs[..n], wakeTimeout))
  {
    var n := |inputs| - 1;
    var init := inputs[..n];
    assert forall c :: 0 <= c < n ==> init[..c] == inputs[..c];
    if Unchecked(status, init, wakeTimeout) && !Starts(inputs[n]) {
      var c :| 0 <= c < n && StopsTicker(status, init, c, wakeTimeout) && forall m :: c < m < n ==> !Starts(init[m]);
      assert StopsTicker(status, inputs, c, wakeTimeout);
    }
    if Unchecked(status, inputs, wakeTimeout) && !StopsTicker(status, inputs, n, wakeTimeout) {
      var c :| 0 <= c <= n && StopsTicker(status, inputs, c, wakeTimeout) && forall m :: c < m <= n ==> !Starts(inputs[m]);
      assert StopsTicker(status, init, c, wakeTimeout);
    }
  }

  lemma {:induction false} SettledNext(status: Status, inputs: seq<Input>, c: nat, wakeTimeout: int)
    requires inputs != []
    ensures var n := |inputs| - 1;
            SettledAt(status, inputs, c, wakeTimeout) <==>
              !Sets(inputs[n]) && if c == n then Concludes(Base(status, inputs[..n]), inputs[n], wakeTimeout) && !Unchecked(status, inputs[..n], wakeTimeout)
                                  else SettledAt(status, inputs[..n], c, wakeTimeout)
  {
    var n := |inputs| - 1;
    if c < n {
      assert inputs[..n][..c] == inputs[..c];
    }
  }

  lemma {:induction false} SetStep(s: State, x: Input, wakeTimeout: int)
    requires s.alive && Sets(x)
    ensures var s' := Step(s, x, wakeTimeout);
            s'.container == SetTo(x) && (s'.ticking <==> Starts(x) || (s.ticking && x.Reload?))
  {}

  /** What each action does to a watched container, from any state. */
  lemma {:induction false} WhatActionsDo(s: State, now: int, wakeTimeout: int)
    requires s.alive
    ensures forall a :: a in {Create, Start, Unpause} ==>
              Step(s, Event(a, now), wakeTimeout) == State(ContainerState(Running, false, None, Some(now), 0), true, true)
    ensures forall a :: a in {Kill, Stop, Die} ==>
              Step(s, Event(a, now), wakeTimeout) == State(ContainerState(Stopped, false, None, None, 0), false, true)
    ensures Step(s, Event(Pause, now), wakeTimeout) == State(ContainerState(Paused, false, None, None, 0), false, true)
    ensures Step(s, Event(Destroy, now), wakeTimeout) == s.(alive := false)
    ensures forall a :: a in {ForceReload, Other} ==> Step(s, Event(a, now), wakeTimeout) == s
  {}

  lemma {:induction false} IdleStep(s: State, x: Input, wakeTimeout: int)
    requires s.alive && !s.ticking && !Sets(x) && !Destroys(x)
    ensures Step(s, x, wakeTimeout) == s
  {}

  lemma {:induction false} CheckStep(s: State, x: Input, wakeTimeout: int, base: ContainerState, tries: nat)
    requires s.alive && s.ticking && !Sets(x) && !Destroys(x) && !base.ready && base.err.None?
    requires s.container == base.(healthTries := if base.status.Running? then tries else 0)
    ensures var s' := Step(s, x, wakeTimeout);
            && (s'.ticking <==> !Concludes(base, x, wakeTimeout))
            && s'.container == if Concludes(base, x, wakeTimeout) then Outcome(base, x, wakeTimeout)
                               else base.(healthTries := if !base.status.Running? then 0
                                                         else if HostTick(x) then tries + 1 else tries)
  {}

  /** Nothing but a destroy event ends the watcher. */
  lemma {:induction false} AliveUnlessDestroyed(status: Status, inputs: seq<Input>, wakeTimeout: int)
    ensures Run(Initial(status), inputs, wakeTimeout).alive <==> NoneDestroys(inputs)
  {
    if inputs != [] {
      AliveUnlessDestroyed(status, inputs[..|inputs| - 1], wakeTimeout);
    }
  }

  /** The state of a destroyed container is the one it had. */
  lemma {:induction false} DestroyedIsFrozen(status: Status, inputs: seq<Input>, d: nat, wakeTimeout: int)
    requires d < |inputs| && Destroys(inputs[d]) && NoneDestroys(inputs[..d])
    ensures Run(Initial(status), inputs, wakeTimeout) == Run(Initial(status), inputs[..d], wakeTimeout).(alive := false)
  {
    var n := |inputs| - 1;
    AliveUnlessDestroyed(status, inputs[..d], wakeTimeout);
    if d < n {
      assert inputs[..n][..d] == inputs[..d];
      DestroyedIsFrozen(status, inputs[..n], d, wakeTimeout);
    }
  }

  /** The health ticker runs unless the history says otherwise, and while it runs the
      state is the one last set, with the checks counted. */
  lemma {:induction false} TickerIsExpected(status: Status, inputs: seq<Input>, wakeTimeout: int)
    requires NoneDestroys(inputs)
    ensures var s, base := Run(Initial(status), inputs, wakeTimeout), Base(status, inputs);
            && (s.ticking <==> !Unchecked(status, inputs, wakeTimeout))
            && (s.ticking ==> s.container == base.(healthTries := if base.status.Running? then Tries(inputs) else 0))
  {
    if inputs != [] {
      var n := |inputs| - 1;
      var s, x := Run(Initial(status), inputs[..n], wakeTimeout), inputs[n];
      TickerIsExpected(status, inputs[..n], wakeTimeout);
      AliveUnlessDestroyed(status, inputs[..n], wakeTimeout);
      UncheckedNext(status, inputs, wakeTimeout);
      if Sets(x) {
        SetStep(s, x, wakeTimeout);
      } else if s.ticking {
        CheckStep(s, x, wakeTimeout, Base(status, inputs[..n]), Tries(inputs[..n]));
      } else {
        IdleStep(s, x, wakeTimeout);
      }
    }
  }

  lemma {:induction false} SettledIsUnchecked(status: Status, inputs: seq<Input>, c: nat, wakeTimeout: int)
    requires SettledAt(status, inputs, c, wakeTimeout)
    ensures Unchecked(status, inputs, wakeTimeout)
  {
    assert StopsTicker(status, inputs, c, wakeTimeout);
  }

  /** What the history leads to: the outcome of the check that settled it, or else the
      state last set, with the checks counted while there are any. */
  ghost predicate Expected(status: Status, inputs: seq<Input>, wakeTimeout: int, container: ContainerState) {
    var base, unchecked := Base(status, inputs), Unchecked(status, inputs, wakeTimeout);
    && (forall c: nat :: SettledAt(status, inputs, c, wakeTimeout) ==>
          container == Outcome(Base(status, inputs[..c]), inputs[c], wakeTimeout))
    && (!Settled(status, inputs, wakeTimeout) ==>
          container == base.(healthTries := if base.status.Running? && !unchecked then Tries(inputs) else 0))
  }

  /** The state after any run, as a function of what happened alone. */
  lemma {:induction false} StateIsExpected(status: Status, inputs: seq<Input>, wakeTimeout: int)
    requires NoneDestroys(inputs)
    ensures Expected(status, inputs, wakeTimeout, Run(Initial(status), inputs, wakeTimeout).container)
  {
    if inputs != [] {
      var n := |inputs| - 1;
      var s, x := Run(Initial(status), inputs[..n], wakeTimeout), inputs[n];
      StateIsExpected(status, inputs[..n], wakeTimeout);
      AliveUnlessDestroyed(status, inputs[..n], wakeTimeout);
      TickerIsExpected(status, inputs[..n], wakeTimeout);
      if Sets(x) {
        SetStep(s, x, wakeTimeout);
        SetIsExpected(status, inputs, wakeTimeout);
      } else if s.ticking {
        CheckStep(s, x, wakeTimeout, Base(status, inputs[..n]), Tries(inputs[..n]));
        CheckIsExpected(status, inputs, wakeTimeout);
      } else {
        IdleStep(s, x, wakeTimeout);
        StillUnchecked(status, inputs, wakeTimeout, s.container);
      }
    }
  }

  lemma {:induction false} SetIsExpected(status: Status, inputs: seq<Input>, wakeTimeout: int)
    requires inputs != [] && Sets(inputs[|inputs| - 1])
    ensures Expected(status, inputs, wakeTimeout, SetTo(inputs[|inputs| - 1]))
  {
    forall c: nat
      ensures !SettledAt(status, inputs, c, wakeTimeout)
    {
      SettledNext(status, inputs, c, wakeTimeout);
    }
  }

  /** Without a check the state stays what it was. */
  lemma {:induction false} StillUnchecked(status: Status, inputs: seq<Input>, wakeTimeout: int, container: ContainerState)
    requires inputs != [] && !Sets(inputs[|inputs| - 1]) && Unchecked(status, inputs[..|inputs| - 1], wakeTimeout)
    requires Expected(status, inputs[..|inputs| - 1], wakeTimeout, container)
    ensures Expected(status, inputs, wakeTimeout, container)
  {
    var n := |inputs| - 1;
    UncheckedNext(status, inputs, wakeTimeout);
    forall c: nat
      ensures SettledAt(status, inputs, c, wakeTimeout) <==> SettledAt(status, inputs[..n], c, wakeTimeout)
      ensures SettledAt(status, inputs, c, wakeTimeout) ==> c < n && inputs[..n][..c] == inputs[..c]
    {
      SettledNext(status, inputs, c, wakeTimeout);
    }
    if Settled(status, inputs[..n], wakeTimeout) {
      var c: nat :| SettledAt(status, inputs[..n], c, wakeTimeout);
      assert SettledAt(status, inputs, c, wakeTimeout);
    }
  }

  lemma {:induction false} CheckIsExpected(status: Status, inputs: seq<Input>, wakeTimeout: int)
    requires inputs != [] && !Sets(inputs[|inputs| - 1]) && !Unchecked(status, inputs[..|inputs| - 1], wakeTimeout)
    ensures var n := |inputs| - 1;
            var base, x := Base(status, inputs[..n]), inputs[n];
            Expected(status, inputs, wakeTimeout,
                     if Concludes(base, x, wakeTimeout) then Outcome(base, x, wakeTimeout)
                     else base.(healthTries := if base.status.Running? then Tries(inputs) else 0))
  {
    var n := |inputs| - 1;
    UncheckedNext(status, inputs, wakeTimeout);
    forall c: nat
      ensures SettledAt(status, inputs, c, wakeTimeout) <==> c == n && Concludes(Base(status, inputs[..n]), inputs[n], wakeTimeout)
    {
      SettledNext(status, inputs, c, wakeTimeout);
      if SettledAt(status, inputs[..n], c, wakeTimeout) {
        SettledIsUnchecked(status, inputs[..n], c, wakeTimeout);
      }
    }
    if Concludes(Base(status, inputs[..n]), inputs[n], wakeTimeout) {
      assert SettledAt(status, inputs, n, wakeTimeout);
    }
  }

  // ---------------------------------------------------------------- readiness and its deadline

  /** The check that settled the state found the container healthy, and not too late. */
  ghost predicate ReadiedAt(status: Status, inputs: seq<Input>, c: nat, wakeTimeout: int) {
    && SettledAt(status, inputs, c, wakeTimeout)
    && inputs[c].check.Healthy? && !TooLate(Base(status, inputs[..c]), inputs[c].now, wakeTimeout)
  }

  ghost predicate FailedAt(status: Status, inputs: seq<Input>, c: nat, wakeTimeout: int) {
    && SettledAt(status, inputs, c, wakeTimeout)
    && (inputs[c].check.CheckError? || TooLate(Base(status, inputs[..c]), inputs[c].now, wakeTimeout))
  }

  /** When exactly a container is ready, and when it is in error. */
  lemma {:induction false} ReadyOrFailedExactly(status: Status, inputs: seq<Input>, wakeTimeout: int)
    requires NoneDestroys(inputs)
    ensures var container := Run(Initial(status), inputs, wakeTimeout).container;
            && (container.ready <==> exists c: nat :: ReadiedAt(status, inputs, c, wakeTimeout))
            && (container.err.Some? <==> exists c: nat :: FailedAt(status, inputs, c, wakeTimeout))
  {
    StateIsExpected(status, inputs, wakeTimeout);
    if Settled(status, inputs, wakeTimeout) {
      var c: nat :| SettledAt(status, inputs, c, wakeTimeout);
      assert ReadiedAt(status, inputs, c, wakeTimeout) || FailedAt(status, inputs, c, wakeTimeout);
    }
  }

  /** Nothing replaces the state between an input and a later one it was last set by. */
  lemma {:induction false} BaseInBetween(status: Status, inputs: seq<Input>, c: nat)
    requires LastSet(inputs) < c < |inputs|
    ensures LastSet(inputs[..c]) == LastSet(inputs) && Base(status, inputs[..c]) == Base(status, inputs)
  {
    var k, k' := LastSet(inputs), LastSet(inputs[..c]);
    assert k' >= 0 ==> inputs[..c][k'] == inputs[k'];
    assert k >= 0 ==> inputs[..c][k] == inputs[k];
  }

  /** A container that is ready since it was last started was found healthy within the
      wake timeout of that start. */
  lemma {:induction false} ReadyInTime(status: Status, inputs: seq<Input>, wakeTimeout: int)
    requires NoneDestroys(inputs) && LastSet(inputs) >= 0 && Starts(inputs[LastSet(inputs)])
    requires Run(Initial(status), inputs, wakeTimeout).container.ready
    ensures exists c :: LastSet(inputs) < c < |inputs| && HostTick(inputs[c]) && inputs[c].check.Healthy?
              && inputs[c].now - inputs[LastSet(inputs)].now <= wakeTimeout
  {
    ReadyOrFailedExactly(status, inputs, wakeTimeout);
    var c: nat :| ReadiedAt(status, inputs, c, wakeTimeout);
    BaseInBetween(status, inputs, c);
  }

  /** The container is up since the start event at `k`; it may have been reloaded. */
  predicate UpSince(inputs: seq<Input>, k: nat) {
    && k < |inputs| && Starts(inputs[k])
    && forall i :: k < i < |inputs| ==> !Starts(inputs[i]) && !PutsDown(inputs[i])
  }

  predicate BecomesReady(status: Status, inputs: seq<Input>, tick: Input, wakeTimeout: int) {
    && !Run(Initial(status), inputs, wakeTimeout).container.ready
    && Run(Initial(status), inputs + [tick], wakeTimeout).container.ready
  }

  lemma {:induction false} BecomesReadyExactly(status: Status, inputs: seq<Input>, tick: Input, wakeTimeout: int)
    requires NoneDestroys(inputs)
    ensures BecomesReady(status, inputs, tick, wakeTimeout) <==>
              && !Unchecked(status, inputs, wakeTimeout) && Base(status, inputs).status.Running?
              && HostTick(tick) && tick.check.Healthy? && !TooLate(Base(status, inputs), tick.now, wakeTimeout)
  {
    TickerIsExpected(status, inputs, wakeTimeout);
    AliveUnlessDestroyed(status, inputs, wakeTimeout);
    assert (inputs + [tick])[..|inputs|] == inputs;
  }

  /** While a started container is being checked, a check that finds it healthy makes it
      ready exactly up to the wake timeout, the last moment included. */
  lemma {:induction false} ReadyUpToTheTimeout(status: Status, inputs: seq<Input>, tick: Input, wakeTimeout: int)
    requires NoneDestroys(inputs) && LastSet(inputs) >= 0 && Starts(inputs[LastSet(inputs)])
    requires !Unchecked(status, inputs, wakeTimeout) && HostTick(tick) && tick.check.Healthy?
    ensures BecomesReady(status, inputs, tick, wakeTimeout) <==> tick.now - inputs[LastSet(inputs)].now <= wakeTimeout
  {
    BecomesReadyExactly(status, inputs, tick, wakeTimeout);
  }

  /** The wake timeout is kept with respect to the start event - unless the container was
      reloaded while it was starting and is still being checked: the reload forgets when it
      was started. */
  lemma {:induction false} TimeoutKeptIffNotReloaded(status: Status, inputs: seq<Input>, k: nat, wakeTimeout: int)
    requires NoneDestroys(inputs) && UpSince(inputs, k)
    ensures (forall tick :: BecomesReady(status, inputs, tick, wakeTimeout) ==> tick.HealthTick? && tick.now - inputs[k].now <= wakeTimeout)
       <==> !(inputs[LastSet(inputs)] == Reload(Running) && !Unchecked(status, inputs, wakeTimeout))
  {
    var l := LastSet(inputs);
    assert l >= k;
    var late := HealthTick(true, inputs[k].now + wakeTimeout + 1, Healthy);
    BecomesReadyExactly(status, inputs, late, wakeTimeout);
    forall tick | BecomesReady(status, inputs, tick, wakeTimeout)
      ensures !Unchecked(status, inputs, wakeTimeout) && HostTick(tick)
      ensures inputs[l] == Reload(Running) || tick.now - inputs[k].now <= wakeTimeout
    {
      BecomesReadyExactly(status, inputs, tick, wakeTimeout);
    }
  }

  /** A container found healthy long after its deadline, since it was reloaded meanwhile. */
  lemma {:induction false} ReloadForgetsTheStart(start: int, wakeTimeout: int)
    ensures var inputs := [Event(Start, start), Reload(Running)];
            UpSince(inputs, 0) &&
            BecomesReady(Stopped, inputs, HealthTick(true, start + wakeTimeout + 1, Healthy), wakeTimeout)
  {
    var a, b := Event(Start, start), Reload(Running);
    var tick := HealthTick(true, start + wakeTimeout + 1, Healthy);
    assert [a, b, tick][..2] == [a, b] && [a, b][..1] == [a] && [a][..0] == [];
    assert [a, b] + [tick] == [a, b, tick];
    assert Run(Initial(Stopped), [a], wakeTimeout) == State(ContainerState(Running, false, None, Some(start), 0), true, true);
    assert Run(Initial(Stopped), [a, b], wakeTimeout) == Initial(Running);
  }

  // ---------------------------------------------------------------- containers nobody checks

  /** A running container that is not ready while nothing checks its health any more. */
  predicate Stuck(s: State) {
    s.alive && s.container.status.Running? && !s.container.ready && !s.ticking
  }

  /** The state was last replaced by a reload that reported the container running, at a
      time when it was no longer being checked. */
  predicate ReloadedUnchecked(status: Status, inputs: seq<Input>, wakeTimeout: int) {
    var k := LastSet(inputs);
    k >= 0 && inputs[k] == Reload(Running) && Unchecked(status, inputs[..k], wakeTimeout)
  }

  lemma {:induction false} ReloadedUncheckedNext(status: Status, inputs: seq<Input>, wakeTimeout: int)
    requires inputs != [] && !Sets(inputs[|inputs| - 1])
    ensures ReloadedUnchecked(status, inputs, wakeTimeout) <==> ReloadedUnchecked(status, inputs[..|inputs| - 1], wakeTimeout)
  {
    var n, k := |inputs| - 1, LastSet(inputs);
    if k >= 0 {
      assert inputs[..n][..k] == inputs[..k];
    }
  }

  /** When exactly a container is stuck, over every run. */
  lemma {:induction false} StuckExactly(status: Status, inputs: seq<Input>, wakeTimeout: int)
    ensures Stuck(Run(Initial(status), inputs, wakeTimeout)) <==>
              NoneDestroys(inputs) && ReloadedUnchecked(status, inputs, wakeTimeout)
  {
    AliveUnlessDestroyed(status, inputs, wakeTimeout);
    if inputs != [] && NoneDestroys(inputs) {
      var n := |inputs| - 1;
      var s, x := Run(Initial(status), inputs[..n], wakeTimeout), inputs[n];
      StuckExactly(status, inputs[..n], wakeTimeout);
      AliveUnlessDestroyed(status, inputs[..n], wakeTimeout);
      TickerIsExpected(status, inputs[..n], wakeTimeout);
      if Sets(x) {
        SetStep(s, x, wakeTimeout);
      } else {
        ReloadedUncheckedNext(status, inputs, wakeTimeout);
        if s.ticking {
          CheckStep(s, x, wakeTimeout, Base(status, inputs[..n]), Tries(inputs[..n]));
        } else {
          IdleStep(s, x, wakeTimeout);
        }
      }
    }
  }

  /** Whatever else happens, it stays stuck until it is started, put down, reloaded or destroyed. */
  lemma {:induction false} StuckStaysStuck(s: State, more: seq<Input>, wakeTimeout: int)
    requires Stuck(s) && NoneDestroys(more) && NoneSets(more, -1)
    ensures Stuck(Run(s, more, wakeTimeout))
  {
    if more != [] {
      StuckStaysStuck(s, more[..|more| - 1], wakeTimeout);
      IdleStep(Run(s, more[..|more| - 1], wakeTimeout), more[|more| - 1], wakeTimeout);
    }
  }

  /** Such a container: one that was ready, and was then reloaded. */
  lemma {:induction false} ReadyThenReloadedIsStuck(now: int, wakeTimeout: int)
    ensures var inputs := [HealthTick(true, now, Healthy), Reload(Running)];
            && Run(Initial(Running), inputs[..1], wakeTimeout).container.ready
            && Stuck(Run(Initial(Running), inputs, wakeTimeout))
  {
    var a, b := HealthTick(true, now, Healthy), Reload(Running);
    assert [a, b][..1] == [a] && [a][..0] == [];
    assert Run(Initial(Running), [a], wakeTimeout) == State(ContainerState(Running, true, None, None, 0), false, true);
  }

  /** A container that was last started does not keep starting for ever: after any check
      beyond the wake timeout it is ready or in error. */
  lemma {:induction false} NoEndlessStart(status: Status, inputs: seq<Input>, m: nat, wakeTimeout: int)
    requires NoneDestroys(inputs) && 0 <= LastSet(inputs) < m < |inputs| && Starts(inputs[LastSet(inputs)])
    requires HostTick(inputs[m]) && inputs[m].now - inputs[LastSet(inputs)].now > wakeTimeout
    ensures var container := Run(Initial(status), inputs, wakeTimeout).container;
            container.ready || container.err.Some?
  {
    BaseInBetween(status, inputs, m);
    assert StopsTicker(status, inputs, m, wakeTimeout);
    assert Unchecked(status, inputs, wakeTimeout);
    TickerIsExpected(status, inputs, wakeTimeout);
    AliveUnlessDestroyed(status, inputs, wakeTimeout);
    StateIsExpected(status, inputs, wakeTimeout);
    StuckExactly(status, inputs, wakeTimeout);
  }
}

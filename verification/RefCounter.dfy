/** The compare-and-swap reference counter, as atomic steps of any number of threads. */
module RefCounter {
  type Thread = nat

  const MAX: nat := 0xFFFF_FFFF

  /** Where a thread is inside `Sub`; a thread outside of it is Idle. */
  datatype Pc = Idle | Loading | Loaded(current: nat) | Closing

  datatype State = State(count: nat, closes: nat, pc: map<Thread, Pc>, adds: nat, subs: nat, panicked: bool)

  const INITIAL := State(1, 0, map[], 0, 0, false)

  function At(s: State, t: Thread): Pc {
    if t in s.pc then s.pc[t] else Idle
  }

  datatype Step =
    | Add(t: Thread)        // the atomic increment
    | BeginSub(t: Thread)   // a thread enters Sub
    | Load(t: Thread)       // reads the count; leaves if it is zero
    | Cas(t: Thread)        // compare and swap; loads again if the count has changed
    | Close(t: Thread)      // closes the channel

  /** Whether the program counter of the thread permits the step. */
  predicate Enabled(s: State, step: Step) {
    match step
    case Add(t) => At(s, t).Idle?
    case BeginSub(t) => At(s, t).Idle?
    case Load(t) => At(s, t).Loading?
    case Cas(t) => At(s, t).Loaded?
    case Close(t) => At(s, t).Closing?
  }

  /** One atomic step on a 32-bit counter. */
  function Take(s: State, step: Step): State
    requires Enabled(s, step)
  {
    match step
    case Add(t) =>
      var newV := (s.count + 1) % (MAX + 1);
      s.(count := newV, adds := s.adds + 1, panicked := s.panicked || newV == 1)
    case BeginSub(t) => s.(pc := s.pc[t := Loading])
    case Load(t) => s.(pc := s.pc[t := if s.count == 0 then Idle else Loaded(s.count)])
    case Cas(t) =>
      var current := At(s, t).current;
      if s.count != current then s.(pc := s.pc[t := Loading])
      else if current == 0 then s.(pc := s.pc[t := Idle])
      else s.(count := current - 1, subs := s.subs + 1, pc := s.pc[t := if current == 1 then Closing else Idle])
    case Close(t) => s.(closes := s.closes + 1, pc := s.pc[t := Idle])
  }

  /** The contract of the counter: nobody adds a reference when none is left (and the
      count does not overflow). */
  predicate Permitted(s: State, step: Step) {
    step.Add? ==> 0 < s.count < MAX
  }

  /** `steps` is an interleaving that the threads can perform from `s`. */
  predicate Runs(s: State, steps: seq<Step>)
    decreases |steps|
  {
    steps == [] || (Enabled(s, steps[0]) && Runs(Take(s, steps[0]), steps[1..]))
  }

  function After(s: State, steps: seq<Step>): State
    requires Runs(s, steps)
    decreases |steps|
  {
    if steps == [] then s else After(Take(s, steps[0]), steps[1..])
  }

  predicate AllPermitted(s: State, steps: seq<Step>)
    requires Runs(s, steps)
    decreases |steps|
  {
    steps == [] || (Permitted(s, steps[0]) && AllPermitted(Take(s, steps[0]), steps[1..]))
  }

  /** The threads that are about to close the channel. */
  function Closers(s: State): set<Thread> {
    set t | t in s.pc && s.pc[t].Closing?
  }

  ghost predicate Inv(s: State) {
    && s.count + s.subs == 1 + s.adds
    && s.count <= MAX && !s.panicked
    && (forall t :: t in s.pc && s.pc[t].Loaded? ==> s.pc[t].current > 0)
    && s.closes + |Closers(s)| == if s.count == 0 then 1 else 0
  }

  lemma {:induction false} ClosersStay(s: State, t: Thread, pc: Pc)
    requires !At(s, t).Closing? && !pc.Closing?
    ensures Closers(s.(pc := s.pc[t := pc])) == Closers(s)
  {}

  lemma {:induction false} ClosersGrow(s: State, t: Thread)
    requires !At(s, t).Closing?
    ensures |Closers(s.(pc := s.pc[t := Closing]))| == |Closers(s)| + 1
  {
    assert Closers(s.(pc := s.pc[t := Closing])) == Closers(s) + {t};
  }

  lemma {:induction false} ClosersShrink(s: State, t: Thread)
    requires At(s, t).Closing?
    ensures |Closers(s.(pc := s.pc[t := Idle]))| == |Closers(s)| - 1
  {
    assert Closers(s.(pc := s.pc[t := Idle])) == Closers(s) - {t};
  }

  lemma {:induction false} StepKeepsInv(s: State, step: Step)
    requires Inv(s) && Enabled(s, step) && Permitted(s, step)
    ensures Inv(Take(s, step))
  {
    var s' := Take(s, step);
    match step
    case Add(t) =>
      assert Closers(s') == Closers(s);
    case BeginSub(t) =>
      ClosersStay(s, t, Loading);
    case Load(t) =>
      ClosersStay(s, t, At(s', t));
    case Cas(t) =>
      if s'.pc[t].Closing? {
        ClosersGrow(s, t);
        assert Closers(s') == Closers(s.(pc := s.pc[t := Closing]));
      } else {
        ClosersStay(s, t, s'.pc[t]);
        assert Closers(s') == Closers(s.(pc := s.pc[t := s'.pc[t]]));
      }
    case Close(t) =>
      ClosersShrink(s, t);
      assert Closers(s') == Closers(s.(pc := s.pc[t := Idle]));
  }

  lemma {:induction false} RunKeepsInv(s: State, steps: seq<Step>)
    requires Inv(s) && Runs(s, steps) && AllPermitted(s, steps)
    ensures Inv(After(s, steps))
    decreases |steps|
  {
    if steps != [] {
      StepKeepsInv(s, steps[0]);
      RunKeepsInv(Take(s, steps[0]), steps[1..]);
    }
  }

  /** Over every interleaving that never adds at zero: the count is one plus the adds
      minus the successful subs, nothing panics, and the channel is closed at most once -
      only after the count is zero, and certainly once no thread is left to close it. */
  lemma {:induction false} EveryRunIsSafe(steps: seq<Step>)
    requires Runs(INITIAL, steps) && AllPermitted(INITIAL, steps)
    ensures var s := After(INITIAL, steps);
            && s.count + s.subs == 1 + s.adds && !s.panicked
            && s.closes <= 1
            && (s.closes == 1 ==> s.count == 0)
            && (s.count == 0 && (forall t :: t in s.pc ==> !s.pc[t].Closing?) ==> s.closes == 1)
  {
    assert Closers(INITIAL) == {};
    RunKeepsInv(INITIAL, steps);
    var s := After(INITIAL, steps);
    if forall t :: t in s.pc ==> !s.pc[t].Closing? {
      assert Closers(s) == {};
    }
  }

  // ---------------------------------------------------------------- counting the steps themselves

  function NumAdds(steps: seq<Step>): nat {
    if steps == [] then 0 else (if steps[0].Add? then 1 else 0) + NumAdds(steps[1..])
  }

  /** A swap that finds the count as it was loaded. */
  predicate Releases(s: State, step: Step) {
    step.Cas? && At(s, step.t) == Loaded(s.count)
  }

  function NumReleases(s: State, steps: seq<Step>): nat
    requires Runs(s, steps)
    decreases |steps|
  {
    if steps == [] then 0
    else (if Releases(s, steps[0]) then 1 else 0) + NumReleases(Take(s, steps[0]), steps[1..])
  }

  lemma {:induction false} CountsFrom(s: State, steps: seq<Step>)
    requires Inv(s) && Runs(s, steps) && AllPermitted(s, steps)
    ensures After(s, steps).count == s.count + NumAdds(steps) - NumReleases(s, steps)
    decreases |steps|
  {
    if steps != [] {
      StepKeepsInv(s, steps[0]);
      CountsFrom(Take(s, steps[0]), steps[1..]);
    }
  }

  /** Over every permitted run the count is one, plus the adds, minus the swaps that found
      the count as they had loaded it. */
  lemma {:induction false} CountIsAddsMinusReleases(steps: seq<Step>)
    requires Runs(INITIAL, steps) && AllPermitted(INITIAL, steps)
    ensures After(INITIAL, steps).count == 1 + NumAdds(steps) - NumReleases(INITIAL, steps)
  {
    assert Closers(INITIAL) == {};
    CountsFrom(INITIAL, steps);
  }

  /** A `Sub` that is not disturbed takes one reference off, whatever their number; on zero
      it leaves at once. */
  lemma {:induction false} UndisturbedSub(s: State, t: Thread)
    requires At(s, t).Idle?
    ensures s.count > 0 ==> var steps := [BeginSub(t), Load(t), Cas(t)];
              && Runs(s, steps) && After(s, steps).count == s.count - 1
              && (At(After(s, steps), t).Closing? <==> s.count == 1)
    ensures s.count == 0 ==> var steps := [BeginSub(t), Load(t)];
              Runs(s, steps) && After(s, steps).count == 0 && At(After(s, steps), t).Idle?
  {
    var s1 := Take(s, BeginSub(t));
    var s2 := Take(s1, Load(t));
    if s.count > 0 {
      RunsBack(s2, Cas(t), []);
      RunsBack(s1, Load(t), [Cas(t)]);
      assert [Load(t)] + [Cas(t)] == [Load(t), Cas(t)];
      RunsBack(s, BeginSub(t), [Load(t), Cas(t)]);
      assert [BeginSub(t)] + [Load(t), Cas(t)] == [BeginSub(t), Load(t), Cas(t)];
    } else {
      RunsBack(s1, Load(t), []);
      RunsBack(s, BeginSub(t), [Load(t)]);
      assert [BeginSub(t)] + [Load(t)] == [BeginSub(t), Load(t)];
    }
  }

  /** A `Sub` that is disturbed is not lost: a thread inside it leaves only by taking a
      reference off, or when it finds none. */
  lemma {:induction false} SubIsNotLost(s: State, step: Step)
    requires Inv(s) && Enabled(s, step) && (At(s, step.t).Loading? || At(s, step.t).Loaded?)
    ensures var s' := Take(s, step);
            At(s', step.t).Idle? || At(s', step.t).Closing? <==>
              (step.Cas? && s'.count == s.count - 1) || (step.Load? && s.count == 0)
  {}

  /** A closed counter stays at zero as long as nobody adds. */
  lemma {:induction false} ClosedIsFinal(s: State, step: Step)
    requires Inv(s) && s.closes == 1 && Enabled(s, step) && Permitted(s, step)
    ensures Take(s, step).count == 0 && Take(s, step).closes == 1
  {
    StepKeepsInv(s, step);
  }

  function Release(t: Thread): seq<Step> {
    [BeginSub(t), Load(t), Cas(t), Close(t)]
  }

  /** A thread that releases the last reference undisturbed closes the channel. */
  lemma {:induction false} LastReleaseCloses(s: State, t: Thread)
    requires At(s, t).Idle? && s.count == 1
    ensures Runs(s, Release(t))
    ensures After(s, Release(t)).closes == s.closes + 1 && After(s, Release(t)).count == 0
  {
    var s1 := Take(s, BeginSub(t));
    var s2 := Take(s1, Load(t));
    var s3 := Take(s2, Cas(t));
    RunsBack(s3, Close(t), []);
    RunsBack(s2, Cas(t), [Close(t)]);
    assert [Cas(t)] + [Close(t)] == [Cas(t), Close(t)];
    RunsBack(s1, Load(t), [Cas(t), Close(t)]);
    assert [Load(t)] + [Cas(t), Close(t)] == [Load(t), Cas(t), Close(t)];
    RunsBack(s, BeginSub(t), [Load(t), Cas(t), Close(t)]);
    assert [BeginSub(t)] + [Load(t), Cas(t), Close(t)] == Release(t);
  }

  /** Some step adds a reference while none is left. */
  predicate AddsAtZero(s: State, steps: seq<Step>)
    requires Runs(s, steps)
  {
    exists i :: 0 <= i < |steps| && steps[i].Add? && CountBefore(s, steps, i) == 0
  }

  function CountBefore(s: State, steps: seq<Step>, i: nat): nat
    requires Runs(s, steps) && i < |steps|
    decreases i
  {
    if i == 0 then s.count else CountBefore(Take(s, steps[0]), steps[1..], i - 1)
  }

  lemma {:induction false} AddsAtZeroNext(s: State, steps: seq<Step>)
    requires steps != [] && Runs(s, steps)
    ensures AddsAtZero(s, steps) <==> (steps[0].Add? && s.count == 0) || AddsAtZero(Take(s, steps[0]), steps[1..])
  {
    var s', rest := Take(s, steps[0]), steps[1..];
    if AddsAtZero(s, steps) {
      var i :| 0 <= i < |steps| && steps[i].Add? && CountBefore(s, steps, i) == 0;
      if i > 0 {
        assert rest[i - 1].Add? && CountBefore(s', rest, i - 1) == 0;
      }
    }
    if AddsAtZero(s', rest) {
      var i :| 0 <= i < |rest| && rest[i].Add? && CountBefore(s', rest, i) == 0;
      assert steps[i + 1].Add? && CountBefore(s, steps, i + 1) == 0;
    }
    if steps[0].Add? && s.count == 0 {
      assert CountBefore(s, steps, 0) == 0;
    }
  }

  /** What holds with overflow, too: the counter stays within its width. */
  predicate InRange(s: State) {
    s.count <= MAX
  }

  lemma {:induction false} PanicsFrom(s: State, steps: seq<Step>)
    requires InRange(s) && Runs(s, steps)
    ensures After(s, steps).panicked <==> s.panicked || AddsAtZero(s, steps)
    decreases |steps|
  {
    if steps != [] {
      PanicsFrom(Take(s, steps[0]), steps[1..]);
      AddsAtZeroNext(s, steps);
    }
  }

  /** Over every interleaving at all, overflowing ones included: something panics if and only
      if a reference was added when none was left. */
  lemma {:induction false} PanicsIffAddsAtZero(steps: seq<Step>)
    requires Runs(INITIAL, steps)
    ensures After(INITIAL, steps).panicked <==> AddsAtZero(INITIAL, steps)
  {
    PanicsFrom(INITIAL, steps);
  }

  lemma {:induction false} RunsOn(s: State, a: seq<Step>, b: seq<Step>)
    requires Runs(s, a) && Runs(After(s, a), b)
    ensures Runs(s, a + b) && After(s, a + b) == After(After(s, a), b)
    decreases |a|
  {
    if a == [] {
      assert a + b == b;
    } else {
      assert (a + b)[1..] == a[1..] + b;
      RunsOn(Take(s, a[0]), a[1..], b);
    }
  }

  /** A step of one thread is no step of another. */
  lemma {:induction false} OthersWait(s: State, steps: seq<Step>, u: Thread)
    requires Runs(s, steps) && forall i :: 0 <= i < |steps| ==> steps[i].t != u
    ensures At(After(s, steps), u) == At(s, u)
    decreases |steps|
  {
    if steps != [] {
      OthersWait(Take(s, steps[0]), steps[1..], u);
    }
  }

  lemma {:induction false} AddAndRelease(s: State, t: Thread)
    requires InRange(s) && s.count == 0 && At(s, t).Idle?
    ensures var steps := [Add(t)] + Release(t);
            Runs(s, steps) && After(s, steps).closes == s.closes + 1 && Take(s, Add(t)).panicked
  {
    LastReleaseCloses(Take(s, Add(t)), t);
    RunsBack(s, Add(t), Release(t));
  }

  /** Adding at zero breaks it, from every state with no reference left, whether the channel
      is closed or the last thread is still about to close it: the add panics, and releasing
      that reference leads to a second close. */
  lemma {:induction false} AddAtZeroClosesTwice(s: State, t: Thread) returns (steps: seq<Step>)
    requires Inv(s) && s.count == 0 && At(s, t).Idle?
    ensures Take(s, Add(t)).panicked
    ensures steps != [] && steps[0] == Add(t) && Runs(s, steps) && After(s, steps).closes == 2
  {
    var again := [Add(t)] + Release(t);
    AddAndRelease(s, t);
    if s.closes == 1 {
      steps := again;
    } else {
      assert Closers(s) != {};
      var u :| u in Closers(s);
      assert forall i :: 0 <= i < |again| ==> again[i].t == t;
      OthersWait(s, again, u);
      var s' := After(s, again);
      assert [Close(u)][1..] == [];
      RunsOn(s, again, [Close(u)]);
      steps := again + [Close(u)];
    }
  }

  lemma {:induction false} RunsBack(s: State, step: Step, steps: seq<Step>)
    requires Enabled(s, step) && Runs(Take(s, step), steps)
    ensures Runs(s, [step] + steps) && After(s, [step] + steps) == After(Take(s, step), steps)
  {
    assert ([step] + steps)[1..] == steps;
  }
}

/** The health monitor: which notifications a sequence of check results causes. */
module HealthMonitor {
  datatype Check = Healthy | Unhealthy | Errored

  datatype Status = StatusHealthy | StatusUnhealthy | StatusError

  datatype Notice = Up | Down

  /** The fields that decide about notifications. */
  datatype State = State(status: Status, numConsecFailures: nat, downNotificationSent: bool)

  // Nanoseconds.
  const INTERVAL_DEFAULT: nat := 5_000_000_000
  const DOWN_NOTIFY_DELAY: nat := 15_000_000_000

  const INITIAL := State(StatusHealthy, 0, false)

  function StatusOf(c: Check): Status {
    match c
    case Healthy => StatusHealthy
    case Unhealthy => StatusUnhealthy
    case Errored => StatusError
  }

  /** One check: the new state and what is sent. */
  function Step(retries: int, s: State, c: Check): (State, seq<Notice>) {
    var s1 := s.(status := StatusOf(c));
    var changed := c.Healthy? != s.status.StatusHealthy?;
    if c.Healthy? then
      if changed then (s1.(numConsecFailures := 0, downNotificationSent := false), [Up]) else (s1, [])
    else
      var immediate := changed && retries < 0;
      var s2 := if immediate then s1.(downNotificationSent := true) else s1;
      var n1 := if immediate then [Down] else [];
      if retries >= 0 then
        var s3 := s2.(numConsecFailures := s2.numConsecFailures + 1);
        if s3.numConsecFailures >= retries && !s3.downNotificationSent then
          (s3.(downNotificationSent := true), n1 + [Down])
        else (s3, n1)
      else (s2, n1)
  }

  function Run(retries: int, checks: seq<Check>): State {
    if checks == [] then INITIAL
    else Step(retries, Run(retries, checks[..|checks| - 1]), checks[|checks| - 1]).0
  }

  /** What the `i`-th check sends. */
  function Sent(retries: int, checks: seq<Check>, i: nat): seq<Notice>
    requires i < |checks|
  {
    Step(retries, Run(retries, checks[..i]), checks[i]).1
  }

  class Monitor {
    const retries: int
    var status: Status
    var numConsecFailures: nat
    var downNotificationSent: bool
    var sent: seq<Notice>
    ghost var history: seq<Check>

    ghost function Abstract(): State
      reads this
    {
      State(status, numConsecFailures, downNotificationSent)
    }

    /** The monitor is in the state its whole history of checks puts it in. */
    ghost predicate Valid()
      reads this
    {
      Abstract() == Run(retries, history)
    }

    /** Without a threshold, as many failures as fit into the notification delay are let pass. */
    constructor (retries: int, interval: nat)
      ensures Valid() && history == [] && sent == []
      ensures retries != 0 ==> this.retries == retries
      ensures retries == 0 ==> var every := if interval == 0 then 5_000_000_000 else interval;
                this.retries * every <= 15_000_000_000 < (this.retries + 1) * every
    {
      if retries == 0 {
        var every := if interval == 0 then INTERVAL_DEFAULT else interval;
        this.retries := DOWN_NOTIFY_DELAY / every;
      } else {
        this.retries := retries;
      }
      status, numConsecFailures, downNotificationSent := StatusHealthy, 0, false;
      sent, history := [], [];
    }

    method CheckUpdateHealth(c: Check)
      requires Valid()
      modifies this
      ensures Valid() && history == old(history) + [c]
      ensures sent == old(sent) + Sent(retries, history, |history| - 1)
    {
      Update(c);
      history := history + [c];
      assert history[..|history| - 1] == old(history);
    }

    method Update(c: Check)
      modifies this`status, this`numConsecFailures, this`downNotificationSent, this`sent
      ensures var (state, notices) := Step(retries, old(Abstract()), c);
              Abstract() == state && sent == old(sent) + notices
    {
      var lastStatus := status;
      status := StatusOf(c);
      if c.Healthy? != lastStatus.StatusHealthy? {
        if c.Healthy? {
          sent := sent + [Up];
          numConsecFailures := 0;
          downNotificationSent := false;
        } else if retries < 0 {
          sent := sent + [Down];
          downNotificationSent := true;
        }
      }
      if !c.Healthy? && retries >= 0 {
        numConsecFailures := numConsecFailures + 1;
        if numConsecFailures >= retries && !downNotificationSent {
          sent := sent + [Down];
          downNotificationSent := true;
        }
      }
    }

    /** The monitoring loop over the results that arrive before its context ends: it gives
        up after the first five errors in a row. */
    method Loop(checks: seq<Check>) returns (n: nat)
      requires Valid() && history == []
      modifies this
      ensures Valid() && n <= |checks| && history == checks[..n]
      ensures forall i :: 0 <= i < n - 1 ==> Streak(checks, i, Errs) < 5
      ensures n < |checks| ==> n > 0 && Streak(checks, n - 1, Errs) == 5
    {
      var failures := 0;
      n := 0;
      while n < |checks|
        invariant Valid() && 0 <= n <= |checks| && history == checks[..n]
        invariant forall i :: 0 <= i < n ==> Streak(checks, i, Errs) < MAX_TRIALS
        invariant failures == if n == 0 then 0 else Streak(checks, n - 1, Errs)
      {
        CheckUpdateHealth(checks[n]);
        n := n + 1;
        assert checks[..n] == checks[..n - 1] + [checks[n - 1]];
        failures := if checks[n - 1].Errored? then failures + 1 else 0;
        if n > 1 && failures >= MAX_TRIALS {
          return;
        }
      }
    }
  }

  const MAX_TRIALS: nat := 5

  // ---------------------------------------------------------------- what is sent, and when

  predicate Fails(c: Check) {
    !c.Healthy?
  }

  predicate Errs(c: Check) {
    c.Errored?
  }

  /** How many results up to and including the `i`-th satisfy `p` without a gap. */
  function Streak(checks: seq<Check>, i: nat, p: Check -> bool): nat
    requires i < |checks|
  {
    if !p(checks[i]) then 0 else if i == 0 then 1 else 1 + Streak(checks, i - 1, p)
  }

  function FailingFor(checks: seq<Check>, i: nat): nat
    requires i < |checks|
  {
    Streak(checks, i, Fails)
  }

  /** The failure at which a service counts as down. */
  function Threshold(retries: int): nat {
    if retries <= 0 then 1 else retries
  }

  /** The state in terms of the checks alone. */
  function Expected(retries: int, checks: seq<Check>): State {
    if checks == [] then INITIAL
    else
      var failing := FailingFor(checks, |checks| - 1);
      State(StatusOf(checks[|checks| - 1]), if retries < 0 then 0 else failing, failing >= Threshold(retries))
  }

  lemma {:induction false} StreakOfPrefix(checks: seq<Check>, n: nat, i: nat, p: Check -> bool)
    requires i < n <= |checks|
    ensures Streak(checks[..n], i, p) == Streak(checks, i, p)
  {
    if i > 0 {
      StreakOfPrefix(checks, n, i - 1, p);
    }
  }

  lemma {:induction false} RunIsExpected(retries: int, checks: seq<Check>)
    ensures Run(retries, checks) == Expected(retries, checks)
  {
    if checks != [] {
      var n := |checks| - 1;
      RunIsExpected(retries, checks[..n]);
      if n > 0 {
        StreakOfPrefix(checks, n, n - 1, Fails);
      }
    }
  }

  /** Exactly which check sends which notification: "up" at the first healthy result after
      a failing one, "down" at the failure that reaches the threshold, nothing otherwise. */
  lemma {:induction false} NoticesAreExact(retries: int, checks: seq<Check>, i: nat)
    requires i < |checks|
    ensures Sent(retries, checks, i)
         == if checks[i].Healthy? then (if i > 0 && !checks[i - 1].Healthy? then [Up] else [])
            else if FailingFor(checks, i) == Threshold(retries) then [Down] else []
  {
    RunIsExpected(retries, checks[..i]);
    if i > 0 {
      StreakOfPrefix(checks, i, i - 1, Fails);
    }
  }

  /** A healthy monitor has forgotten all failures. */
  lemma {:induction false} HealthyIsClean(retries: int, checks: seq<Check>)
    requires Run(retries, checks).status == StatusHealthy
    ensures Run(retries, checks) == INITIAL
  {
    RunIsExpected(retries, checks);
  }

  /** `[start, stop)` is a failing run that begins after a healthy result, or at the beginning. */
  predicate FailingRun(checks: seq<Check>, start: nat, stop: nat) {
    && start < stop <= |checks|
    && (forall i :: start <= i < stop ==> !checks[i].Healthy?)
    && (start > 0 ==> checks[start - 1].Healthy?)
  }

  lemma {:induction false} FailingForInRun(checks: seq<Check>, start: nat, stop: nat, i: nat)
    requires FailingRun(checks, start, stop) && start <= i < stop
    ensures FailingFor(checks, i) == i - start + 1
    decreases i
  {
    if i > start {
      FailingForInRun(checks, start, stop, i - 1);
    } else if start > 0 {
      assert FailingFor(checks, start - 1) == 0;
    }
  }

  function AllSent(retries: int, checks: seq<Check>, start: nat, stop: nat): seq<Notice>
    requires start <= stop <= |checks|
    decreases stop - start
  {
    if start == stop then [] else AllSent(retries, checks, start, stop - 1) + Sent(retries, checks, stop - 1)
  }

  /** A failing run sends one "down" if it lasts long enough, and nothing else. */
  lemma {:induction false} FailingRunSends(retries: int, checks: seq<Check>, start: nat, stop: nat)
    requires FailingRun(checks, start, stop)
    ensures AllSent(retries, checks, start, stop) == if stop - start >= Threshold(retries) then [Down] else []
    decreases stop
  {
    NoticesAreExact(retries, checks, stop - 1);
    FailingForInRun(checks, start, stop, stop - 1);
    if stop - 1 > start {
      FailingRunSends(retries, checks, start, stop - 1);
    } else {
      assert AllSent(retries, checks, start, start) == [];
    }
  }

  /** A failing run that ends sends exactly one "up" when it does, long or short. */
  lemma {:induction false} RecoverySends(retries: int, checks: seq<Check>, start: nat, stop: nat)
    requires FailingRun(checks, start, stop) && stop < |checks| && checks[stop].Healthy?
    ensures AllSent(retries, checks, start, stop + 1)
         == (if stop - start >= Threshold(retries) then [Down] else []) + [Up]
  {
    FailingRunSends(retries, checks, start, stop);
    NoticesAreExact(retries, checks, stop);
  }

  /** While the service stays healthy nothing is sent. */
  lemma {:induction false} HealthyRunSends(retries: int, checks: seq<Check>, start: nat, stop: nat)
    requires start <= stop <= |checks| && forall i :: start <= i < stop ==> checks[i].Healthy?
    requires start > 0 ==> checks[start - 1].Healthy?
    ensures AllSent(retries, checks, start, stop) == []
    decreases stop - start
  {
    if start < stop {
      HealthyRunSends(retries, checks, start, stop - 1);
      StillHealthySends(retries, checks, stop - 1);
    }
  }

  lemma {:induction false} StillHealthySends(retries: int, checks: seq<Check>, i: nat)
    requires i < |checks| && checks[i].Healthy? && (i > 0 ==> checks[i - 1].Healthy?)
    ensures Sent(retries, checks, i) == []
  {
    NoticesAreExact(retries, checks, i);
  }
}

/** What the events of a request say is true: checks and commands have the outcomes that the
    rules' conditions and commands give at that point, and failures are reported. */
module RuleTrace {
  import opened Common
  import opened RuleHandler

  /** The event `e` is right after the events `t`. */
  predicate RightAfter(env: Env, t: Trace, e: Event) {
    match e
    case Checked(rule, matched) => matched <==> (rule.hasChecker ==> env.check(rule, t))
    case Ran(rule, command, outcome) => command in rule.exec && !command.Bypass? && outcome == env.run(command, t)
    case Handled(rule, outcome) => true
    case ErrorReported(rule) => t != [] && t[|t| - 1] == Handled(rule, Failed)
    case Upstream => true
  }

  /** Every event is right, and every failed rule but possibly the last event is reported. */
  ghost predicate Truthful(env: Env, t: Trace) {
    && (forall i :: 0 <= i < |t| ==> RightAfter(env, t[..i], t[i]))
    && (forall i :: 0 <= i < |t| - 1 && FailsAt(t, i) ==> t[i + 1] == ErrorReported(t[i].rule))
  }

  predicate FailsAt(t: Trace, i: nat) {
    i < |t| && t[i].Handled? && t[i].outcome.Failed?
  }

  /** No failure waits to be reported. */
  predicate Reported(t: Trace) {
    t == [] || !FailsAt(t, |t| - 1)
  }

  lemma {:induction false} OneMore(env: Env, t: Trace, e: Event)
    requires Truthful(env, t) && RightAfter(env, t, e) && (Reported(t) || e == ErrorReported(t[|t| - 1].rule))
    ensures Truthful(env, t + [e])
  {
    var t' := t + [e];
    forall i | 0 <= i < |t'|
      ensures RightAfter(env, t'[..i], t'[i])
      ensures i < |t'| - 1 && FailsAt(t', i) ==> t'[i + 1] == ErrorReported(t'[i].rule)
    {
      assert t'[..i] == t[..i];
      if i < |t| {
        assert t'[i] == t[i];
      } else {
        assert t[..i] == t;
      }
      if i < |t| - 1 && FailsAt(t', i) {
        assert FailsAt(t, i) && t'[i + 1] == t[i + 1];
      }
    }
  }

  lemma {:induction false} CommandsAreTruthful(env: Env, rule: Rule, exec: seq<Command>, t: Trace)
    requires Truthful(env, t) && Reported(t) && forall c :: c in exec ==> c in rule.exec
    ensures var r := RunCommands(env, rule, exec, t); Truthful(env, r.trace) && Reported(r.trace)
    decreases |exec|
  {
    if exec != [] && !exec[0].Bypass? {
      var r := RunCommand(env, rule, exec[0], t);
      OneMore(env, t, Ran(rule, exec[0], env.run(exec[0], t)));
      if r.outcome.Done? {
        CommandsAreTruthful(env, rule, exec[1..], r.trace);
      }
    }
  }

  lemma {:induction false} RuleIsTruthful(env: Env, rule: Rule, t: Trace)
    requires Truthful(env, t) && Reported(t)
    ensures var r := HandleAndReport(env, rule, t); Truthful(env, r.trace) && Reported(r.trace)
  {
    CommandsAreTruthful(env, rule, rule.exec, t);
    var r := RunCommands(env, rule, rule.exec, t);
    OneMore(env, r.trace, Handled(rule, r.outcome));
    if r.outcome.Failed? {
      OneMore(env, r.trace + [Handled(rule, r.outcome)], ErrorReported(rule));
    }
  }

  lemma {:induction false} PreIsTruthful(env: Env, pre: seq<Rule>, t: Trace, matched: bool)
    requires Truthful(env, t) && Reported(t)
    ensures var p := RunPre(env, pre, t, matched); Truthful(env, p.trace) && Reported(p.trace)
    decreases |pre|
  {
    if pre != [] {
      var rule := pre[0];
      var ok := Check(env, rule, t);
      var t' := t + [Checked(rule, ok)];
      OneMore(env, t, Checked(rule, ok));
      if !ok {
        PreIsTruthful(env, pre[1..], t', matched);
      } else if !IsBypass(rule.exec) {
        RuleIsTruthful(env, rule, t');
        var r := HandleAndReport(env, rule, t');
        if r.outcome.Done? {
          PreIsTruthful(env, pre[1..], r.trace, true);
        }
      }
    }
  }

  lemma {:induction false} PostIsTruthful(env: Env, post: seq<Rule>, t: Trace)
    requires Truthful(env, t) && Reported(t)
    ensures var r := RunPost(env, post, t); Truthful(env, r.trace) && Reported(r.trace)
    decreases |post|
  {
    if post != [] {
      var rule := post[0];
      var ok := Check(env, rule, t);
      var t' := t + [Checked(rule, ok)];
      OneMore(env, t, Checked(rule, ok));
      if !ok {
        PostIsTruthful(env, post[1..], t');
      } else {
        RuleIsTruthful(env, rule, t');
        var r := HandleAndReport(env, rule, t');
        if r.outcome.Done? {
          PostIsTruthful(env, post[1..], r.trace);
        }
      }
    }
  }

  lemma {:induction false} PrePhaseIsTruthful(env: Env, default: Option<Rule>, pre: seq<Rule>)
    ensures var p := Pre(env, default, pre); Truthful(env, p.trace) && Reported(p.trace)
  {
    var first := DefaultFirst(env, default);
    if default.Some? {
      RuleIsTruthful(env, default.value, []);
    }
    var p := if first.callUpstream then RunPre(env, pre, first.trace, false) else first;
    if first.callUpstream {
      PreIsTruthful(env, pre, first.trace, false);
    }
    if default.Some? {
      RuleIsTruthful(env, default.value, p.trace);
    }
  }

  lemma {:induction false} GeneralIsTruthful(env: Env, default: Option<Rule>, pre: seq<Rule>, post: seq<Rule>)
    ensures var t := ServeGeneral(env, default, pre, post); Truthful(env, t) && Reported(t)
  {
    PrePhaseIsTruthful(env, default, pre);
    var p := Pre(env, default, pre);
    if !p.returned {
      var t := p.trace + (if p.callUpstream then [Upstream] else []);
      if p.callUpstream {
        OneMore(env, p.trace, Upstream);
      } else {
        assert t == p.trace;
      }
      PostIsTruthful(env, post, t);
      if default.Some? {
        RuleIsTruthful(env, default.value, RunPost(env, post, t).trace);
      }
    }
  }

  lemma {:induction false} UpstreamIsTruthful(env: Env)
    ensures Truthful(env, [Upstream]) && Reported([Upstream])
  {
    OneMore(env, [], Upstream);
    assert [] + [Upstream] == [Upstream];
  }

  lemma {:induction false} DefaultBeforeIsTruthful(env: Env, rule: Rule)
    ensures var t := Serve(env, DefaultBefore(rule)); Truthful(env, t) && Reported(t)
  {
    RuleIsTruthful(env, rule, []);
    var r := HandleAndReport(env, rule, []);
    if r.outcome.Done? {
      OneMore(env, r.trace, Upstream);
    }
  }

  lemma {:induction false} ServeIsTruthful(env: Env, h: Handler)
    ensures Truthful(env, Serve(env, h)) && Reported(Serve(env, h))
  {
    UpstreamIsTruthful(env);
    match h
    case PassThrough =>
    case DefaultAfter(rule) => RuleIsTruthful(env, rule, [Upstream]);
    case DefaultBefore(rule) => DefaultBeforeIsTruthful(env, rule);
    case General(default, pre, post) => GeneralIsTruthful(env, default, pre, post);
  }

  /** Whatever the rules, the conditions, the commands and the upstream: in the trace of a
      request every check has the value of its condition at that point (a rule without one
      matches), every command the outcome it has there, and exactly the failed rules are
      reported, at once. */
  lemma {:induction false} EveryTraceIsTruthful(env: Env, rules: seq<Rule>)
    ensures var t := Serve(env, Compiled(rules));
            && (forall i :: 0 <= i < |t| && t[i].Checked? ==>
                  (t[i].matched <==> !t[i].rule.hasChecker || env.check(t[i].rule, t[..i])))
            && (forall i :: 0 <= i < |t| && t[i].Ran? ==>
                  t[i].command in t[i].rule.exec && t[i].outcome == env.run(t[i].command, t[..i]))
            && (forall i :: 0 <= i < |t| && t[i].Handled? && t[i].outcome.Failed? ==>
                  i + 1 < |t| && t[i + 1] == ErrorReported(t[i].rule))
            && (forall i :: 0 <= i < |t| && t[i].ErrorReported? ==> i > 0 && t[i - 1] == Handled(t[i].rule, Failed))
  {
    ServeIsTruthful(env, Compiled(rules));
    TruthfulMeans(env, Serve(env, Compiled(rules)));
  }

  lemma {:induction false} TruthfulMeans(env: Env, t: Trace)
    requires Truthful(env, t) && Reported(t)
    ensures forall i :: 0 <= i < |t| && t[i].Checked? ==>
              (t[i].matched <==> !t[i].rule.hasChecker || env.check(t[i].rule, t[..i]))
    ensures forall i :: 0 <= i < |t| && t[i].Ran? ==>
              t[i].command in t[i].rule.exec && t[i].outcome == env.run(t[i].command, t[..i])
    ensures forall i :: 0 <= i < |t| && t[i].Handled? && t[i].outcome.Failed? ==>
              i + 1 < |t| && t[i + 1] == ErrorReported(t[i].rule)
    ensures forall i :: 0 <= i < |t| && t[i].ErrorReported? ==> i > 0 && t[i - 1] == Handled(t[i].rule, Failed)
  {
    assert forall i :: 0 <= i < |t| ==> RightAfter(env, t[..i], t[i]);
    forall i | 0 <= i < |t| && t[i].Handled? && t[i].outcome.Failed?
      ensures i + 1 < |t| && t[i + 1] == ErrorReported(t[i].rule)
    {
      assert FailsAt(t, i);
    }
  }

  // ---------------------------------------------------------------- what a rule list is compiled to

  predicate Increasing(idx: seq<nat>, n: nat) {
    (forall k :: 0 <= k < |idx| ==> idx[k] < n) && forall k, l :: 0 <= k < l < |idx| ==> idx[k] < idx[l]
  }

  /** `part` is made of exactly the rules with `p`, in the order of the list. */
  ghost predicate InOrderOf(rules: seq<Rule>, part: seq<Rule>, p: Rule -> bool) {
    exists idx: seq<nat> :: Picks(rules, part, p, idx)
  }

  ghost predicate Picks(rules: seq<Rule>, part: seq<Rule>, p: Rule -> bool, idx: seq<nat>) {
    && |idx| == |part| && Increasing(idx, |rules|)
    && (forall k :: 0 <= k < |idx| ==> rules[idx[k]] == part[k])
    && (forall i :: 0 <= i < |rules| ==> (i in idx <==> p(rules[i])))
  }

  lemma {:induction false} SelectKeepsOrder(rules: seq<Rule>, p: Rule -> bool)
    ensures InOrderOf(rules, Select(rules, p), p)
  {
    var idx := SelectedAt(rules, p);
  }

  lemma {:induction false} SelectedAt(rules: seq<Rule>, p: Rule -> bool) returns (idx: seq<nat>)
    ensures Picks(rules, Select(rules, p), p, idx)
  {
    idx := [];
    if rules != [] {
      var n := |rules| - 1;
      idx := SelectedAt(rules[..n], p);
      PicksNext(rules[..n], rules[n], Select(rules[..n], p), p, idx);
      assert rules == rules[..n] + [rules[n]];
      if p(rules[n]) {
        idx := idx + [n];
      }
    }
  }

  lemma {:induction false} PicksNext(rules: seq<Rule>, r: Rule, part: seq<Rule>, p: Rule -> bool, idx: seq<nat>)
    requires Picks(rules, part, p, idx)
    ensures if p(r) then Picks(rules + [r], part + [r], p, idx + [|rules|]) else Picks(rules + [r], part, p, idx)
  {}

  lemma {:induction false} LastDefaultIsLast(rules: seq<Rule>)
    ensures match LastDefault(rules)
            case None => forall i :: 0 <= i < |rules| ==> rules[i].name != "default"
            case Some(r) => exists i :: 0 <= i < |rules| && rules[i] == r && r.name == "default"
                              && forall j :: i < j < |rules| ==> rules[j].name != "default"
  {
    if rules != [] {
      var n := |rules| - 1;
      LastDefaultIsLast(rules[..n]);
      if rules[n].name == "default" {
        assert rules[n] == LastDefault(rules).value;
      } else if LastDefault(rules).Some? {
        var r := LastDefault(rules).value;
        var i :| 0 <= i < n && rules[..n][i] == r && r.name == "default" && forall j :: i < j < n ==> rules[..n][j].name != "default";
        assert rules[i] == r;
      }
    }
  }

  predicate IsRequestRule(r: Rule) {
    r.name != "default" && !r.responseChecker && !r.responseHandler
  }

  predicate IsResponse(r: Rule) {
    r.name != "default" && (r.responseChecker || r.responseHandler)
  }

  /** What a list of rules is compiled to: with a rule that is no default, the last default
      and the other rules in their order, split by whether they look at the response; with
      defaults only, a handler for the last of them. */
  lemma {:induction false} CompiledExactly(rules: seq<Rule>)
    ensures var h := Compiled(rules);
            && (h.General? <==> exists i :: 0 <= i < |rules| && rules[i].name != "default")
            && (h.General? ==>
                  && h.default == LastDefault(rules)
                  && InOrderOf(rules, h.pre, IsRequestRule) && InOrderOf(rules, h.post, IsResponse))
            && (!h.General? && rules != [] ==> LastDefault(rules).Some? && h == DefaultOnly(LastDefault(rules).value))
            && (rules == [] ==> h == PassThrough)
  {
    LastDefaultIsLast(rules);
    OthersSelected(rules);
    SelectKeepsOrder(rules, Before);
    SelectKeepsOrder(rules, After);
    SameChoice(rules, Select(rules, Before), Before, IsRequestRule);
    SameChoice(rules, Select(rules, After), After, IsResponse);
  }

  lemma {:induction false} SameChoice(rules: seq<Rule>, part: seq<Rule>, p: Rule -> bool, q: Rule -> bool)
    requires InOrderOf(rules, part, p) && forall r :: p(r) == q(r)
    ensures InOrderOf(rules, part, q)
  {
    var idx: seq<nat> :| Picks(rules, part, p, idx);
    assert Picks(rules, part, q, idx);
  }

  lemma {:induction false} OthersSelected(rules: seq<Rule>)
    ensures Select(rules, NamedOtherwise) != [] <==> exists i :: 0 <= i < |rules| && rules[i].name != "default"
  {
    var others := Select(rules, NamedOtherwise);
    if others != [] {
      SelectedHold(rules, NamedOtherwise, others[0]);
      var i :| 0 <= i < |rules| && rules[i] == others[0];
      assert rules[i].name != "default";
    }
    if i :| 0 <= i < |rules| && rules[i].name != "default" {
      SelectedHold(rules, NamedOtherwise, rules[i]);
    }
  }

  // ---------------------------------------------------------------- how far the checks go

  /** The trace ends with `rule` terminating the request or failing. */
  predicate EndsInterrupted(t: Trace, rule: Rule) {
    t != [] && var e := t[|t| - 1]; e == ErrorReported(rule) || e == Handled(rule, Terminated)
  }

  lemma {:induction false} RuleInterrupts(env: Env, rule: Rule, t: Trace)
    ensures var r := HandleAndReport(env, rule, t); !r.outcome.Done? ==> EndsInterrupted(r.trace, rule)
    ensures var r := HandleAndReport(env, rule, t); ChecksOf(r.trace) == ChecksOf(t)
  {
    RuleRuns(env, rule, t);
  }

  /** The request rules are checked one after the other until one that matches bypasses the
      rest, terminates the request or fails. */
  predicate StopsAt(t: Trace, rule: Rule) {
    EndsInterrupted(t, rule) || (IsBypass(rule.exec) && t != [] && t[|t| - 1] == Checked(rule, true))
  }

  lemma {:induction false} PreChecks(env: Env, pre: seq<Rule>, t: Trace, matched: bool) returns (n: nat)
    ensures var p := RunPre(env, pre, t, matched);
            && n <= |pre| && ChecksOf(p.trace) == ChecksOf(t) + pre[..n] && (matched ==> p.matched)
            && (n < |pre| ==> n > 0 && StopsAt(p.trace, pre[n - 1]) && p.matched)
    decreases |pre|
  {
    n := 0;
    if pre != [] {
      var rule := pre[0];
      var ok := Check(env, rule, t);
      var t' := t + [Checked(rule, ok)];
      assert t'[..|t|] == t;
      assert pre[..1] == [rule];
      n := 1;
      if !ok {
        n := PreChecksNext(env, pre, t, t', matched);
      } else if !IsBypass(rule.exec) {
        RuleInterrupts(env, rule, t');
        var r := HandleAndReport(env, rule, t');
        if r.outcome.Done? {
          n := PreChecksNext(env, pre, t, r.trace, true);
        }
      }
    }
  }

  lemma {:induction false} PreChecksNext(env: Env, pre: seq<Rule>, t: Trace, t': Trace, matched: bool) returns (n: nat)
    requires pre != [] && ChecksOf(t') == ChecksOf(t) + [pre[0]]
    ensures var p := RunPre(env, pre[1..], t', matched);
            && 0 < n <= |pre| && ChecksOf(p.trace) == ChecksOf(t) + pre[..n] && (matched ==> p.matched)
            && (n < |pre| ==> StopsAt(p.trace, pre[n - 1]) && p.matched)
    decreases |pre|, 0
  {
    var m := PreChecks(env, pre[1..], t', matched);
    n := m + 1;
    AppendAssociates(ChecksOf(t), [pre[0]], pre[1..][..m]);
    assert pre[..n] == [pre[0]] + pre[1..][..m];
  }

  lemma {:induction false} PostChecks(env: Env, post: seq<Rule>, t: Trace) returns (n: nat)
    ensures var r := RunPost(env, post, t);
            && n <= |post| && ChecksOf(r.trace) == ChecksOf(t) + post[..n]
            && (n < |post| || !r.outcome.Done? ==> n > 0 && EndsInterrupted(r.trace, post[n - 1]))
            && (r.outcome.Done? ==> n == |post|)
    decreases |post|
  {
    n := 0;
    if post != [] {
      var rule := post[0];
      var ok := Check(env, rule, t);
      var t' := t + [Checked(rule, ok)];
      assert t'[..|t|] == t;
      assert post[..1] == [rule];
      n := 1;
      if !ok {
        n := PostChecksNext(env, post, t, t');
      } else {
        RuleInterrupts(env, rule, t');
        var r := HandleAndReport(env, rule, t');
        if r.outcome.Done? {
          n := PostChecksNext(env, post, t, r.trace);
        }
      }
    }
  }

  lemma {:induction false} PostChecksNext(env: Env, post: seq<Rule>, t: Trace, t': Trace) returns (n: nat)
    requires post != [] && ChecksOf(t') == ChecksOf(t) + [post[0]]
    ensures var r := RunPost(env, post[1..], t');
            && 0 < n <= |post| && ChecksOf(r.trace) == ChecksOf(t) + post[..n]
            && (n < |post| || !r.outcome.Done? ==> EndsInterrupted(r.trace, post[n - 1]))
            && (r.outcome.Done? ==> n == |post|)
    decreases |post|, 0
  {
    var m := PostChecks(env, post[1..], t');
    n := m + 1;
    AppendAssociates(ChecksOf(t), [post[0]], post[1..][..m]);
    assert post[..n] == [post[0]] + post[1..][..m];
  }

  /** The first phase: all request rules are checked unless one stops it, or the default that
      comes first already interrupted the request. */
  lemma {:induction false} FirstPhaseChecks(env: Env, default: Option<Rule>, pre: seq<Rule>) returns (n: nat)
    ensures var p := Pre(env, default, pre);
            && n <= |pre| && ChecksOf(p.trace) == pre[..n]
            && (n < |pre| ==> (n == 0 && default.Some? && EndsInterrupted(p.trace, default.value))
                              || (n > 0 && StopsAt(p.trace, pre[n - 1])))
            && (p.returned ==> default.Some? && IsTerminating(default.value.exec) && p.trace != []
                               && p.trace[|p.trace| - 1] == ErrorReported(default.value))
  {
    var first := DefaultFirst(env, default);
    var p := if first.callUpstream then RunPre(env, pre, first.trace, false) else first;
    NotReturnedYet(env, default, pre);
    DefaultFirstChecks(env, default);
    LastDefaultChecks(env, default, p);
    n := 0;
    if first.callUpstream {
      n := PreChecks(env, pre, first.trace, false);
      assert [] + pre[..n] == pre[..n];
    }
  }

  lemma {:induction false} DefaultFirstChecks(env: Env, default: Option<Rule>)
    ensures var first := DefaultFirst(env, default);
            && ChecksOf(first.trace) == []
            && (!first.callUpstream ==> default.Some? && EndsInterrupted(first.trace, default.value))
  {
    if default.Some? {
      RuleInterrupts(env, default.value, []);
    }
  }

  lemma {:induction false} LastDefaultChecks(env: Env, default: Option<Rule>, p: Phase)
    requires !p.returned
    ensures var p' := DefaultLast(env, default, p);
            && ChecksOf(p'.trace) == ChecksOf(p.trace)
            && (!p.callUpstream || p.matched ==> p' == p)
            && (p'.returned ==> default.Some? && IsTerminating(default.value.exec) && p'.trace != []
                                && p'.trace[|p'.trace| - 1] == ErrorReported(default.value))
  {
    if default.Some? {
      RuleInterrupts(env, default.value, p.trace);
    }
  }

  lemma {:induction false} NotReturnedYet(env: Env, default: Option<Rule>, pre: seq<Rule>)
    ensures !DefaultFirst(env, default).returned
    ensures !RunPre(env, pre, DefaultFirst(env, default).trace, false).returned
  {
    var n := PreRules(env, pre, DefaultFirst(env, default).trace, false);
  }

  /** How far a request goes through the rules, in every behaviour of conditions and commands.
      All request rules are checked, in order, unless a matching one bypasses the others,
      terminates the request or fails, or a default that comes first does. Then all response
      rules are checked unless one terminates or fails - whether or not the upstream was called;
      only a terminating default that fails keeps them from it. */
  lemma {:induction false} ChecksGoOn(env: Env, default: Option<Rule>, pre: seq<Rule>, post: seq<Rule>) returns (n: nat, m: nat, a: nat)
    ensures var t := ServeGeneral(env, default, pre, post);
            && n <= |pre| && m <= |post| && a <= |t|
            && ChecksOf(t[..a]) == pre[..n] && ChecksOf(t) == pre[..n] + post[..m]
            && (n < |pre| ==> (n == 0 && default.Some? && EndsInterrupted(t[..a], default.value))
                              || (n > 0 && StopsAt(t[..a], pre[n - 1])))
            && (m < |post| ==> (m > 0 && EndsInterrupted(t, post[m - 1]))
                               || (m == 0 && default.Some? && IsTerminating(default.value.exec)
                                   && t != [] && t[|t| - 1] == ErrorReported(default.value)))
  {
    var p := Pre(env, default, pre);
    n := FirstPhaseChecks(env, default, pre);
    a := |p.trace|;
    m := 0;
    var t := ServeGeneral(env, default, pre, post);
    RequestPhases(env, default, pre, post);
    assert t[..a] == p.trace;
    if p.returned {
      assert pre[..n] + post[..0] == pre[..n];
    } else {
      var t0 := p.trace + (if p.callUpstream then [Upstream] else []);
      CallIsNoCheck(p.trace, p.callUpstream);
      m := SecondPhaseChecks(env, default, post, t0);
    }
  }

  lemma {:induction false} CallIsNoCheck(t: Trace, called: bool)
    ensures ChecksOf(t + (if called then [Upstream] else [])) == ChecksOf(t)
  {
    if called {
      assert (t + [Upstream])[..|t|] == t;
      assert ChecksOf(t) + [] == ChecksOf(t);
    } else {
      assert t + [] == t;
    }
  }

  lemma {:induction false} SecondPhaseChecks(env: Env, default: Option<Rule>, post: seq<Rule>, t: Trace) returns (m: nat)
    ensures var t' := Post(env, default, post, t);
            && m <= |post| && ChecksOf(t') == ChecksOf(t) + post[..m]
            && (m < |post| ==> m > 0 && EndsInterrupted(t', post[m - 1]))
  {
    m := PostChecks(env, post, t);
    var r := RunPost(env, post, t);
    if r.outcome.Done? && default.Some? && IsResponseRule(default.value) {
      RuleInterrupts(env, default.value, r.trace);
    }
  }
}

/** The rule handler: rules are compiled into a handler that runs some of them before
    the upstream and some after it. Checks, commands and the upstream are arbitrary
    functions of everything that happened before them. */
module RuleHandler {
  import opened Common

  datatype Outcome = Done | Terminated | Failed

  datatype Command = NonTerminating(id: nat) | Terminating(id: nat) | OnResponse(id: nat) | Bypass

  /** `exec` lists the commands of a rule; the flags say whether its condition, and
      whether its commands, look at the response. */
  datatype Rule = Rule(name: string, hasChecker: bool, responseChecker: bool,
                       exec: seq<Command>, responseHandler: bool)

  datatype Event =
    | Checked(rule: Rule, matched: bool)
    | Ran(rule: Rule, command: Command, outcome: Outcome)
    | Handled(rule: Rule, outcome: Outcome)   // the rule's commands returned
    | ErrorReported(rule: Rule)
    | Upstream

  type Trace = seq<Event>

  datatype Env = Env(check: (Rule, Trace) -> bool, run: (Command, Trace) -> Outcome)

  predicate IsResponseRule(rule: Rule) {
    rule.responseChecker || rule.responseHandler
  }

  predicate IsTerminating(exec: seq<Command>) {
    exec != [] && exec[|exec| - 1].Terminating?
  }

  /** Only the last command is looked at. */
  predicate IsBypass(exec: seq<Command>) {
    exec != [] && exec[|exec| - 1].Bypass?
  }

  // ---------------------------------------------------------------- commands

  datatype Result = Result(trace: Trace, outcome: Outcome)

  function RunCommands(env: Env, rule: Rule, exec: seq<Command>, t: Trace): Result {
    if exec == [] then Result(t, Done)
    else
      var r := RunCommand(env, rule, exec[0], t);
      if r.outcome.Done? then RunCommands(env, rule, exec[1..], r.trace) else r
  }

  function RunCommand(env: Env, rule: Rule, c: Command, t: Trace): Result {
    if c.Bypass? then Result(t, Terminated)
    else
      var o := env.run(c, t);
      Result(t + [Ran(rule, c, o)], if c.Terminating? && o.Done? then Terminated else o)
  }

  function Handle(env: Env, rule: Rule, t: Trace): Result {
    var r := RunCommands(env, rule, rule.exec, t);
    Result(r.trace + [Handled(rule, r.outcome)], r.outcome)
  }

  /** A rule is handled, and a failure that is not a termination is reported. */
  function HandleAndReport(env: Env, rule: Rule, t: Trace): Result {
    var r := Handle(env, rule, t);
    if r.outcome.Failed? then Result(r.trace + [ErrorReported(rule)], r.outcome) else r
  }

  function Check(env: Env, rule: Rule, t: Trace): bool {
    !rule.hasChecker || env.check(rule, t)
  }

  // ---------------------------------------------------------------- compilation

  datatype Handler =
    | PassThrough
    | DefaultBefore(rule: Rule)
    | DefaultAfter(rule: Rule)
    | General(default: Option<Rule>, pre: seq<Rule>, post: seq<Rule>)

  const DEFAULT := "default"

  function LastDefault(rules: seq<Rule>): Option<Rule> {
    if rules == [] then None
    else if rules[|rules| - 1].name == DEFAULT then Some(rules[|rules| - 1])
    else LastDefault(rules[..|rules| - 1])
  }

  function Select(rules: seq<Rule>, p: Rule -> bool): seq<Rule> {
    if rules == [] then []
    else Select(rules[..|rules| - 1], p) + (if p(rules[|rules| - 1]) then [rules[|rules| - 1]] else [])
  }

  predicate Before(rule: Rule) {
    rule.name != DEFAULT && !IsResponseRule(rule)
  }

  predicate After(rule: Rule) {
    rule.name != DEFAULT && IsResponseRule(rule)
  }

  predicate NamedOtherwise(rule: Rule) {
    rule.name != DEFAULT
  }

  /** The last default rule counts; the other rules keep their order in each phase. */
  function Compiled(rules: seq<Rule>): Handler {
    var default := LastDefault(rules);
    if Select(rules, NamedOtherwise) != [] then General(default, Select(rules, Before), Select(rules, After))
    else if default.Some? then DefaultOnly(default.value)
    else PassThrough
  }

  /** A terminating or bypass command must be the last one. */
  method BuildCmd(executors: seq<Command>) returns (ok: bool)
    ensures ok <==> ReturnsLast(executors)
    ensures ok <==> forall i :: 0 <= i < |executors| && (executors[i].Terminating? || executors[i].Bypass?) ==>
                      i == |executors| - 1
  {
    for i := 0 to |executors|
      invariant forall j :: 0 <= j < i && j < |executors| - 1 ==> !executors[j].Terminating? && !executors[j].Bypass?
    {
      if (executors[i].Terminating? || executors[i].Bypass?) && i != |executors| - 1 {
        return false;
      }
    }
    return true;
  }

  predicate ReturnsLast(exec: seq<Command>) {
    forall i :: 0 <= i < |exec| - 1 ==> !exec[i].Terminating? && !exec[i].Bypass?
  }

  method BuildHandler(rules: seq<Rule>) returns (h: Handler)
    ensures h == Compiled(rules)
  {
    if |rules| == 0 {
      return PassThrough;
    }
    var default: Option<Rule> := None;
    var nonDefault: seq<Rule> := [];
    for i := 0 to |rules|
      invariant default == LastDefault(rules[..i]) && nonDefault == Select(rules[..i], NamedOtherwise)
      invariant i > 0 && nonDefault == [] ==> default.Some?
    {
      assert rules[..i + 1][..i] == rules[..i];
      if rules[i].name == DEFAULT {
        default := Some(rules[i]);
      } else {
        nonDefault := nonDefault + [rules[i]];
      }
    }
    assert rules[..|rules|] == rules;
    if |nonDefault| == 0 {
      return DefaultOnly(default.value);
    }
    var pre: seq<Rule>, post: seq<Rule> := [], [];
    for i := 0 to |nonDefault|
      invariant pre == Select(nonDefault[..i], Before) && post == Select(nonDefault[..i], After)
    {
      assert nonDefault[..i + 1][..i] == nonDefault[..i];
      SelectedHold(rules, NamedOtherwise, nonDefault[i]);
      if IsResponseRule(nonDefault[i]) {
        post := post + [nonDefault[i]];
      } else {
        pre := pre + [nonDefault[i]];
      }
    }
    assert nonDefault[..|nonDefault|] == nonDefault;
    SelectTwice(rules, Before);
    SelectTwice(rules, After);
    return General(default, pre, post);
  }

  /** The special cases for a list of default rules only. */
  function DefaultOnly(default: Rule): Handler {
    if IsBypass(default.exec) then PassThrough
    else if IsResponseRule(default) then DefaultAfter(default)
    else DefaultBefore(default)
  }

  lemma {:induction false} SelectedHold(rules: seq<Rule>, p: Rule -> bool, rule: Rule)
    ensures rule in Select(rules, p) <==> rule in rules && p(rule)
  {
    if rules != [] {
      SelectedHold(rules[..|rules| - 1], p, rule);
    }
  }

  lemma {:induction false} SelectConcat(r1: seq<Rule>, r2: seq<Rule>, p: Rule -> bool)
    ensures Select(r1 + r2, p) == Select(r1, p) + Select(r2, p)
  {
    if r2 == [] {
      assert r1 + r2 == r1;
    } else {
      assert (r1 + r2)[..|r1 + r2| - 1] == r1 + r2[..|r2| - 1];
      SelectConcat(r1, r2[..|r2| - 1], p);
    }
  }

  lemma {:induction false} SelectTwice(rules: seq<Rule>, p: Rule -> bool)
    requires forall r :: p(r) ==> NamedOtherwise(r)
    ensures Select(Select(rules, NamedOtherwise), p) == Select(rules, p)
  {
    if rules != [] {
      var last := rules[|rules| - 1];
      SelectTwice(rules[..|rules| - 1], p);
      if NamedOtherwise(last) {
        SelectConcat(Select(rules[..|rules| - 1], NamedOtherwise), [last], p);
        assert Select([last], p) == Select([], p) + (if p(last) then [last] else []);
      } else {
        var others := Select(rules[..|rules| - 1], NamedOtherwise);
        assert others + [] == others && Select(rules[..|rules| - 1], p) + [] == Select(rules[..|rules| - 1], p);
      }
    }
  }

  // ---------------------------------------------------------------- serving a request

  /** How the part before the upstream ended: whether the upstream is called, whether a
      rule matched, and whether the handler returned at once. */
  datatype Phase = Phase(trace: Trace, callUpstream: bool, matched: bool, returned: bool)

  function RunPre(env: Env, pre: seq<Rule>, t: Trace, matched: bool): Phase {
    if pre == [] then Phase(t, true, matched, false)
    else
      var ok := Check(env, pre[0], t);
      var t' := t + [Checked(pre[0], ok)];
      if !ok then RunPre(env, pre[1..], t', matched)
      else if IsBypass(pre[0].exec) then Phase(t', true, true, false)
      else
        var r := HandleAndReport(env, pre[0], t');
        if r.outcome.Done? then RunPre(env, pre[1..], r.trace, true) else Phase(r.trace, false, true, false)
  }

  function DefaultFirst(env: Env, default: Option<Rule>): Phase {
    if default.Some? && !IsResponseRule(default.value) && !IsTerminating(default.value.exec)
       && !IsBypass(default.value.exec) then
      var r := HandleAndReport(env, default.value, []);
      Phase(r.trace, r.outcome.Done?, false, false)
    else Phase([], true, false, false)
  }

  function DefaultLast(env: Env, default: Option<Rule>, p: Phase): Phase {
    if default.Some? && !IsResponseRule(default.value) && IsTerminating(default.value.exec)
       && p.callUpstream && !p.matched then
      var r := HandleAndReport(env, default.value, p.trace);
      Phase(r.trace, r.outcome.Done?, false, r.outcome.Failed?)
    else p
  }

  function Pre(env: Env, default: Option<Rule>, pre: seq<Rule>): Phase {
    var first := DefaultFirst(env, default);
    DefaultLast(env, default, if first.callUpstream then RunPre(env, pre, first.trace, false) else first)
  }

  /** The response rules; stops at the first one that does not complete. */
  function RunPost(env: Env, post: seq<Rule>, t: Trace): Result {
    if post == [] then Result(t, Done)
    else
      var ok := Check(env, post[0], t);
      var t' := t + [Checked(post[0], ok)];
      if !ok then RunPost(env, post[1..], t')
      else
        var r := HandleAndReport(env, post[0], t');
        if r.outcome.Done? then RunPost(env, post[1..], r.trace) else r
  }

  function Post(env: Env, default: Option<Rule>, post: seq<Rule>, t: Trace): Trace {
    var r := RunPost(env, post, t);
    if r.outcome.Done? && default.Some? && IsResponseRule(default.value) then
      HandleAndReport(env, default.value, r.trace).trace
    else r.trace
  }

  function ServeGeneral(env: Env, default: Option<Rule>, pre: seq<Rule>, post: seq<Rule>): Trace {
    var p := Pre(env, default, pre);
    if p.returned then p.trace
    else Post(env, default, post, p.trace + (if p.callUpstream then [Upstream] else []))
  }

  function Serve(env: Env, h: Handler): Trace {
    match h
    case PassThrough => [Upstream]
    case DefaultAfter(rule) => HandleAndReport(env, rule, [Upstream]).trace
    case DefaultBefore(rule) =>
      var r := HandleAndReport(env, rule, []);
      if r.outcome.Done? then r.trace + [Upstream] else r.trace
    case General(default, pre, post) => ServeGeneral(env, default, pre, post)
  }

  /** The closure the general case compiles to, with its flags and loops. */
  method HandleRequest(env: Env, default: Option<Rule>, pre: seq<Rule>, post: seq<Rule>) returns (log: Trace)
    ensures log == ServeGeneral(env, default, pre, post)
  {
    log := [];
    var isDefaultPost := default.Some? && IsResponseRule(default.value);
    var defaultTerminates := default.Some? && IsTerminating(default.value.exec);
    var shouldCallUpstream, preMatched := true, false;
    if default.Some? && !isDefaultPost && !defaultTerminates {
      if !IsBypass(default.value.exec) {
        var r := HandleAndReport(env, default.value, log);
        log := r.trace;
        if !r.outcome.Done? {
          shouldCallUpstream := false;
        }
      }
    }
    ghost var first := DefaultFirst(env, default);
    assert log == first.trace && shouldCallUpstream == first.callUpstream;
    if shouldCallUpstream {
      var i := 0;
      while i < |pre|
        invariant 0 <= i <= |pre| && shouldCallUpstream
        invariant RunPre(env, pre[i..], log, preMatched) == RunPre(env, pre, first.trace, false)
      {
        var ok := Check(env, pre[i], log);
        assert pre[i..][1..] == pre[i + 1..];
        log := log + [Checked(pre[i], ok)];
        if ok {
          preMatched := true;
          if IsBypass(pre[i].exec) {
            break;
          }
          var r := HandleAndReport(env, pre[i], log);
          log := r.trace;
          if !r.outcome.Done? {
            shouldCallUpstream := false;
            break;
          }
        }
        i := i + 1;
      }
      assert Phase(log, shouldCallUpstream, preMatched, false) == RunPre(env, pre, first.trace, false);
    }
    if default.Some? && !isDefaultPost && defaultTerminates && shouldCallUpstream && !preMatched {
      if !IsBypass(default.value.exec) {
        var r := HandleAndReport(env, default.value, log);
        log := r.trace;
        if r.outcome.Failed? {
          return;
        } else if !r.outcome.Done? {
          shouldCallUpstream := false;
        }
      }
    }
    ghost var p := Pre(env, default, pre);
    assert log == p.trace && shouldCallUpstream == p.callUpstream && !p.returned;
    if shouldCallUpstream {
      log := log + [Upstream];
    } else {
      assert p.trace + [] == p.trace;
    }
    ghost var start := log;
    if |post| == 0 && !isDefaultPost {
      return;
    }
    var i := 0;
    while i < |post|
      invariant 0 <= i <= |post| && RunPost(env, post[i..], log) == RunPost(env, post, start)
    {
      var ok := Check(env, post[i], log);
      assert post[i..][1..] == post[i + 1..];
      log := log + [Checked(post[i], ok)];
      if ok {
        var r := HandleAndReport(env, post[i], log);
        log := r.trace;
        if !r.outcome.Done? {
          return;
        }
      }
      i := i + 1;
    }
    if isDefaultPost {
      log := HandleAndReport(env, default.value, log).trace;
    }
  }

  // ---------------------------------------------------------------- what a request goes through

  predicate Interrupted(e: Event) {
    e.Handled? && !e.outcome.Done?
  }

  /** `t'` continues `t` with events of `rules` only; `quiet` says whether every rule
      that ran on the way let the request go on. */
  ghost predicate Segment(t: Trace, t': Trace, rules: seq<Rule>, quiet: bool) {
    && t <= t'
    && (forall i :: |t| <= i < |t'| ==> !t'[i].Upstream? && t'[i].rule in rules)
    && (quiet <==> forall i :: |t| <= i < |t'| ==> !Interrupted(t'[i]))
  }

  lemma {:induction false} SegmentJoins(t1: Trace, t2: Trace, t3: Trace, r1: seq<Rule>, r2: seq<Rule>, rules: seq<Rule>, quiet: bool)
    requires Segment(t1, t2, r1, true) && Segment(t2, t3, r2, quiet)
    requires forall r :: r in r1 || r in r2 ==> r in rules
    ensures Segment(t1, t3, rules, quiet)
  {
    forall i | |t1| <= i < |t3|
      ensures !t3[i].Upstream? && t3[i].rule in rules && (i < |t2| ==> !Interrupted(t3[i]))
    {
      if i < |t2| {
        assert t3[i] == t2[i];
      }
    }
  }

  function ChecksOf(t: Trace): seq<Rule> {
    if t == [] then []
    else ChecksOf(t[..|t| - 1]) + (if t[|t| - 1].Checked? then [t[|t| - 1].rule] else [])
  }

  /** `t'` continues `t` with events of `rule` that are not checks. */
  ghost predicate RunsRule(t: Trace, t': Trace, rule: Rule) {
    && t <= t'
    && (forall i :: |t| <= i < |t'| ==> !t'[i].Upstream? && !t'[i].Checked? && t'[i].rule == rule)
  }

  lemma {:induction false} CommandsRun(env: Env, rule: Rule, exec: seq<Command>, t: Trace)
    ensures RunsRule(t, RunCommands(env, rule, exec, t).trace, rule)
    ensures forall i :: |t| <= i < |RunCommands(env, rule, exec, t).trace| ==> RunCommands(env, rule, exec, t).trace[i].Ran?
    ensures IsTerminating(exec) || IsBypass(exec) ==> !RunCommands(env, rule, exec, t).outcome.Done?
    decreases |exec|
  {
    if exec != [] {
      CommandsRun(env, rule, exec[1..], RunCommand(env, rule, exec[0], t).trace);
    }
  }

  /** A command that was run and lets the next one run. */
  predicate Completes(e: Event) {
    e.Ran? && !e.command.Terminating? && e.outcome.Done?
  }

  /** `t'` continues `t` with commands from the front of `exec`, in order, each run on what
      happened before it and each but the last completed. */
  ghost predicate RanInOrder(env: Env, rule: Rule, exec: seq<Command>, t: Trace, t': Trace) {
    && t <= t' && |t'| <= |t| + |exec|
    && (forall i :: |t| <= i < |t'| ==> t'[i] == Ran(rule, exec[i - |t|], env.run(exec[i - |t|], t'[..i])))
    && (forall i :: |t| <= i < |t'| - 1 ==> Completes(t'[i]))
  }

  /** How a run of commands ends: it is done exactly if all ran and completed, and otherwise
      at a bypass or at a command that did not complete. */
  ghost predicate EndsRightly(exec: seq<Command>, t: Trace, r: Result)
    requires |t| <= |r.trace| && forall i :: |t| <= i < |r.trace| ==> r.trace[i].Ran?
  {
    var n, lastCompletes := |r.trace| - |t|, |r.trace| > |t| ==> Completes(r.trace[|r.trace| - 1]);
    && (r.outcome.Done? <==> n == |exec| && lastCompletes)
    && (!r.outcome.Done? && lastCompletes ==> n < |exec| && exec[n].Bypass? && r.outcome.Terminated?)
    && (!lastCompletes ==> var last := r.trace[|r.trace| - 1];
          r.outcome == if last.outcome.Done? then Terminated else last.outcome)
  }

  /** Commands run in order until one does not complete or a bypass is reached, and the list
      is done exactly if neither happened. */
  lemma {:induction false} CommandsRunInOrder(env: Env, rule: Rule, exec: seq<Command>, t: Trace)
    ensures var r := RunCommands(env, rule, exec, t);
            RanInOrder(env, rule, exec, t, r.trace) && EndsRightly(exec, t, r)
    decreases |exec|
  {
    if exec != [] && !exec[0].Bypass? {
      var first := RunCommand(env, rule, exec[0], t);
      assert first.trace[..|t|] == t;
      if first.outcome.Done? {
        CommandsRunInOrder(env, rule, exec[1..], first.trace);
        var r := RunCommands(env, rule, exec[1..], first.trace);
        OrderedFrom(env, rule, exec, t, first.trace, r.trace);
        EndsLater(exec, t, first.trace, r);
      }
    }
  }

  lemma {:induction false} EndsLater(exec: seq<Command>, t: Trace, t1: Trace, r: Result)
    requires exec != [] && |t1| == |t| + 1 <= |r.trace| && r.trace[|t|] == t1[|t|] && Completes(t1[|t|])
    requires forall i :: |t| <= i < |r.trace| ==> r.trace[i].Ran?
    requires EndsRightly(exec[1..], t1, r)
    ensures EndsRightly(exec, t, r)
  {}

  lemma {:induction false} OrderedFrom(env: Env, rule: Rule, exec: seq<Command>, t: Trace, t1: Trace, t': Trace)
    requires exec != [] && t1 == t + [Ran(rule, exec[0], env.run(exec[0], t))] && Completes(t1[|t|])
    requires RanInOrder(env, rule, exec[1..], t1, t')
    ensures RanInOrder(env, rule, exec, t, t')
  {
    forall i | |t| <= i < |t'|
      ensures t'[i] == Ran(rule, exec[i - |t|], env.run(exec[i - |t|], t'[..i]))
      ensures i < |t'| - 1 ==> Completes(t'[i])
    {
      if i == |t| {
        assert t'[i] == t1[i] && t'[..i] == t1[..i] && t1[..i] == t;
      } else {
        assert exec[1..][i - |t1|] == exec[i - |t|];
      }
    }
  }

  /** A rule that ends in a terminating command never lets the request go on. */
  lemma {:induction false} RuleRuns(env: Env, rule: Rule, t: Trace)
    ensures var r := HandleAndReport(env, rule, t);
            && Segment(t, r.trace, [rule], r.outcome.Done?)
            && ChecksOf(r.trace) == ChecksOf(t)
            && (IsTerminating(rule.exec) || IsBypass(rule.exec) ==> !r.outcome.Done?)
  {
    CommandsRun(env, rule, rule.exec, t);
    var r := RunCommands(env, rule, rule.exec, t);
    var t' := HandleAndReport(env, rule, t).trace;
    assert t'[|r.trace|] == Handled(rule, r.outcome);
    ChecksUnchanged(t, t', rule);
  }

  lemma {:induction false} ChecksUnchanged(t: Trace, t': Trace, rule: Rule)
    requires RunsRule(t, t', rule)
    ensures ChecksOf(t') == ChecksOf(t)
    decreases |t'|
  {
    if |t'| > |t| {
      ChecksUnchanged(t, t'[..|t'| - 1], rule);
      assert ChecksOf(t'[..|t'| - 1]) + [] == ChecksOf(t);
    } else {
      assert t' == t;
    }
  }

  lemma {:induction false} ChecksNext(t: Trace, rule: Rule, ok: bool)
    ensures ChecksOf(t + [Checked(rule, ok)]) == ChecksOf(t) + [rule]
  {
    assert (t + [Checked(rule, ok)])[..|t|] == t;
  }

  lemma {:induction false} CheckRuns(t: Trace, rule: Rule, ok: bool)
    ensures Segment(t, t + [Checked(rule, ok)], [rule], true)
    ensures ChecksOf(t + [Checked(rule, ok)]) == ChecksOf(t) + [rule]
  {
    ChecksNext(t, rule, ok);
  }

  /** The rules before the upstream: a prefix of them is checked, in order, and the
      upstream is to be called exactly when none of those that ran interrupted the request. */
  lemma {:induction false} PreRules(env: Env, pre: seq<Rule>, t: Trace, matched: bool) returns (n: nat)
    ensures var p := RunPre(env, pre, t, matched);
            && !p.returned && Segment(t, p.trace, pre, p.callUpstream)
            && n <= |pre| && ChecksOf(p.trace) == ChecksOf(t) + pre[..n]
            && (matched ==> p.matched)
    decreases |pre|
  {
    if pre == [] {
      n := 0;
      assert pre[..0] == [];
    } else {
      var rule := pre[0];
      var ok := Check(env, rule, t);
      var t' := t + [Checked(rule, ok)];
      CheckRuns(t, rule, ok);
      assert pre[..1] == [rule];
      SegmentJoins(t, t, t', [], [rule], pre, true);
      if !ok {
        n := NextPreRules(env, pre, t, t', matched);
      } else if IsBypass(rule.exec) {
        n := 1;
      } else {
        RuleRuns(env, rule, t');
        var r := HandleAndReport(env, rule, t');
        SegmentJoins(t, t', r.trace, [rule], [rule], pre, r.outcome.Done?);
        if r.outcome.Done? {
          n := NextPreRules(env, pre, t, r.trace, true);
        } else {
          n := 1;
        }
      }
    }
  }

  lemma {:induction false} NextPreRules(env: Env, pre: seq<Rule>, t: Trace, t': Trace, matched: bool) returns (n: nat)
    requires pre != [] && Segment(t, t', pre, true) && ChecksOf(t') == ChecksOf(t) + [pre[0]]
    ensures var p := RunPre(env, pre[1..], t', matched);
            && !p.returned && Segment(t, p.trace, pre, p.callUpstream)
            && n <= |pre| && ChecksOf(p.trace) == ChecksOf(t) + pre[..n]
            && (matched ==> p.matched)
    decreases |pre|, 0
  {
    var m := PreRules(env, pre[1..], t', matched);
    n := m + 1;
    assert pre[..n] == [pre[0]] + pre[1..][..m];
    AppendAssociates(ChecksOf(t), [pre[0]], pre[1..][..m]);
    var p := RunPre(env, pre[1..], t', matched);
    SegmentJoins(t, t', p.trace, pre, pre[1..], pre, p.callUpstream);
  }

  lemma {:induction false} PostRules(env: Env, post: seq<Rule>, t: Trace) returns (n: nat)
    ensures var r := RunPost(env, post, t);
            && Segment(t, r.trace, post, r.outcome.Done?)
            && n <= |post| && ChecksOf(r.trace) == ChecksOf(t) + post[..n]
            && (r.outcome.Done? ==> n == |post|)
    decreases |post|
  {
    if post == [] {
      n := 0;
      assert post[..0] == [];
    } else {
      var rule := post[0];
      var ok := Check(env, rule, t);
      var t' := t + [Checked(rule, ok)];
      CheckRuns(t, rule, ok);
      assert post[..1] == [rule];
      SegmentJoins(t, t, t', [], [rule], post, true);
      if !ok {
        n := NextPostRules(env, post, t, t');
      } else {
        RuleRuns(env, rule, t');
        var r := HandleAndReport(env, rule, t');
        SegmentJoins(t, t', r.trace, [rule], [rule], post, r.outcome.Done?);
        if r.outcome.Done? {
          n := NextPostRules(env, post, t, r.trace);
        } else {
          n := 1;
        }
      }
    }
  }

  lemma {:induction false} NextPostRules(env: Env, post: seq<Rule>, t: Trace, t': Trace) returns (n: nat)
    requires post != [] && Segment(t, t', post, true) && ChecksOf(t') == ChecksOf(t) + [post[0]]
    ensures var r := RunPost(env, post[1..], t');
            && Segment(t, r.trace, post, r.outcome.Done?)
            && n <= |post| && ChecksOf(r.trace) == ChecksOf(t) + post[..n]
            && (r.outcome.Done? ==> n == |post|)
    decreases |post|, 0
  {
    var m := PostRules(env, post[1..], t');
    var r := RunPost(env, post[1..], t');
    SegmentJoins(t, t', r.trace, post, post[1..], post, r.outcome.Done?);
    n := m + 1;
    assert post[..n] == [post[0]] + post[1..][..m];
  }

  /** The rules that may run before, and after, the upstream. */
  function BeforeUpstream(default: Option<Rule>, pre: seq<Rule>): seq<Rule> {
    pre + (if default.Some? && !IsResponseRule(default.value) then [default.value] else [])
  }

  function AfterUpstream(default: Option<Rule>, post: seq<Rule>): seq<Rule> {
    post + (if default.Some? && IsResponseRule(default.value) then [default.value] else [])
  }

  lemma {:induction false} PrePhase(env: Env, default: Option<Rule>, pre: seq<Rule>) returns (n: nat)
    ensures var p := Pre(env, default, pre);
            && Segment([], p.trace, BeforeUpstream(default, pre), p.callUpstream)
            && (p.returned ==> !p.callUpstream)
            && n <= |pre| && ChecksOf(p.trace) == pre[..n]
  {
    var all := BeforeUpstream(default, pre);
    var first := DefaultFirst(env, default);
    if default.Some? {
      RuleRuns(env, default.value, []);
    }
    SegmentJoins([], [], first.trace, [], BeforeUpstream(default, []), all, first.callUpstream);
    assert ChecksOf(first.trace) == [];
    n := 0;
    assert pre[..0] == [];
    if first.callUpstream {
      n := PreRules(env, pre, first.trace, false);
      var p := RunPre(env, pre, first.trace, false);
      SegmentJoins([], first.trace, p.trace, all, pre, all, p.callUpstream);
      assert [] + pre[..n] == pre[..n];
      if p.callUpstream && default.Some? && !IsResponseRule(default.value) {
        RuleRuns(env, default.value, p.trace);
        var r := HandleAndReport(env, default.value, p.trace);
        SegmentJoins([], p.trace, r.trace, all, [default.value], all, r.outcome.Done?);
      }
    }
  }

  lemma {:induction false} PostPhase(env: Env, default: Option<Rule>, post: seq<Rule>, t: Trace) returns (n: nat, quiet: bool)
    ensures Segment(t, Post(env, default, post, t), AfterUpstream(default, post), quiet)
    ensures n <= |post| && ChecksOf(Post(env, default, post, t)) == ChecksOf(t) + post[..n]
  {
    var all := AfterUpstream(default, post);
    var r := RunPost(env, post, t);
    n := PostRules(env, post, t);
    quiet := r.outcome.Done?;
    SegmentJoins(t, t, r.trace, [], post, all, quiet);
    if r.outcome.Done? && default.Some? && IsResponseRule(default.value) {
      RuleRuns(env, default.value, r.trace);
      var d := HandleAndReport(env, default.value, r.trace);
      quiet := d.outcome.Done?;
      SegmentJoins(t, r.trace, d.trace, all, [default.value], all, quiet);
    }
  }

  /** The part of the trace up to and including the call of the upstream. */
  function UpToCall(p: Phase): Trace {
    if p.callUpstream then p.trace + [Upstream] else p.trace
  }

  /** For every behaviour of checks and commands a request goes through two phases. In the
      first only request rules (and a default that is one) act, in the second only response
      rules; between them the upstream is called once, exactly when no rule of the first
      phase terminated the request or failed. */
  lemma {:induction false} RequestPhases(env: Env, default: Option<Rule>, pre: seq<Rule>, post: seq<Rule>)
    ensures var t := ServeGeneral(env, default, pre, post);
            var p := Pre(env, default, pre);
            && UpToCall(p) <= t
            && (forall i :: 0 <= i < |p.trace| ==> !t[i].Upstream? && t[i].rule in BeforeUpstream(default, pre))
            && (forall i :: |UpToCall(p)| <= i < |t| ==> !t[i].Upstream? && t[i].rule in AfterUpstream(default, post))
            && (p.callUpstream <==> forall i :: 0 <= i < |p.trace| ==> !Interrupted(t[i]))
  {
    var t := ServeGeneral(env, default, pre, post);
    var p := Pre(env, default, pre);
    var n := PrePhase(env, default, pre);
    if !p.returned {
      assert p.trace + [] == p.trace;
      var m, quiet := PostPhase(env, default, post, UpToCall(p));
    }
  }

  /** Rules are checked in their order in the list: first a prefix of the request rules,
      then a prefix of the response rules. */
  lemma {:induction false} RequestChecksInOrder(env: Env, default: Option<Rule>, pre: seq<Rule>, post: seq<Rule>)
    ensures exists n, m :: 0 <= n <= |pre| && 0 <= m <= |post| &&
              ChecksOf(ServeGeneral(env, default, pre, post)) == pre[..n] + post[..m]
  {
    var t := ServeGeneral(env, default, pre, post);
    var p := Pre(env, default, pre);
    var n := PrePhase(env, default, pre);
    if p.returned {
      assert ChecksOf(t) == pre[..n] + post[..0];
    } else {
      assert p.trace + [] == p.trace;
      if p.callUpstream {
        assert UpToCall(p)[..|p.trace|] == p.trace;
        assert ChecksOf(UpToCall(p)) == pre[..n] + [];
      }
      var m, quiet := PostPhase(env, default, post, UpToCall(p));
      assert ChecksOf(t) == pre[..n] + post[..m];
    }
  }

  // ---------------------------------------------------------------- who runs

  /** The rules whose commands ran, in order. */
  function HandledOf(t: Trace): seq<Rule> {
    if t == [] then []
    else HandledOf(t[..|t| - 1]) + (if t[|t| - 1].Handled? then [t[|t| - 1].rule] else [])
  }

  /** The rules that were checked, matched and satisfy `p`, in order. */
  function MatchedOf(t: Trace, p: Rule -> bool): seq<Rule> {
    if t == [] then []
    else
      var e := t[|t| - 1];
      MatchedOf(t[..|t| - 1], p) + (if e.Checked? && e.matched && p(e.rule) then [e.rule] else [])
  }

  predicate NoBypass(rule: Rule) {
    !IsBypass(rule.exec)
  }

  predicate AnyRule(rule: Rule) {
    true
  }

  lemma {:induction false} HandledByRule(env: Env, rule: Rule, t: Trace, p: Rule -> bool)
    ensures var t' := HandleAndReport(env, rule, t).trace;
            HandledOf(t') == HandledOf(t) + [rule] && MatchedOf(t', p) == MatchedOf(t, p)
  {
    CommandsRun(env, rule, rule.exec, t);
    var r := RunCommands(env, rule, rule.exec, t);
    OnlyRan(t, r.trace, p);
    var h := r.trace + [Handled(rule, r.outcome)];
    assert h[..|r.trace|] == r.trace;
    assert MatchedOf(r.trace, p) + [] == MatchedOf(t, p);
    var e := h + [ErrorReported(rule)];
    assert e[..|h|] == h;
    assert HandledOf(h) + [] == HandledOf(h) && MatchedOf(h, p) + [] == MatchedOf(h, p);
  }

  lemma {:induction false} OnlyRan(t: Trace, t': Trace, p: Rule -> bool)
    requires t <= t' && forall i :: |t| <= i < |t'| ==> t'[i].Ran?
    ensures HandledOf(t') == HandledOf(t) && MatchedOf(t', p) == MatchedOf(t, p)
    decreases |t'|
  {
    if |t'| > |t| {
      OnlyRan(t, t'[..|t'| - 1], p);
    } else {
      assert t' == t;
    }
  }

  lemma {:induction false} CheckMatches(t: Trace, rule: Rule, ok: bool, p: Rule -> bool)
    ensures var t' := t + [Checked(rule, ok)];
            HandledOf(t') == HandledOf(t) && MatchedOf(t', p) == MatchedOf(t, p) + (if ok && p(rule) then [rule] else [])
  {
    assert (t + [Checked(rule, ok)])[..|t|] == t;
  }

  /** Before the upstream exactly the matching rules without a bypass run, in order. */
  lemma {:induction false} PreRunsMatched(env: Env, pre: seq<Rule>, t: Trace, matched: bool, base: seq<Rule>)
    requires HandledOf(t) == base + MatchedOf(t, NoBypass)
    ensures var t' := RunPre(env, pre, t, matched).trace;
            HandledOf(t') == base + MatchedOf(t', NoBypass)
    ensures RunPre(env, pre, t, matched).matched <==>
              matched || MatchedOf(RunPre(env, pre, t, matched).trace, AnyRule) != MatchedOf(t, AnyRule)
    ensures |MatchedOf(RunPre(env, pre, t, matched).trace, AnyRule)| >= |MatchedOf(t, AnyRule)|
    decreases |pre|
  {
    if pre != [] {
      var rule := pre[0];
      var ok := Check(env, rule, t);
      var t1 := t + [Checked(rule, ok)];
      CheckMatches(t, rule, ok, NoBypass);
      CheckMatches(t, rule, ok, AnyRule);
      if !ok {
        PreRunsMatched(env, pre[1..], t1, matched, base);
      } else if !IsBypass(rule.exec) {
        HandledByRule(env, rule, t1, NoBypass);
        HandledByRule(env, rule, t1, AnyRule);
        var r := HandleAndReport(env, rule, t1);
        AppendAssociates(base, MatchedOf(t, NoBypass), [rule]);
        if r.outcome.Done? {
          PreRunsMatched(env, pre[1..], r.trace, true, base);
        }
      }
    }
  }

  /** After the upstream exactly the matching rules run, in order. */
  lemma {:induction false} PostRunsMatched(env: Env, post: seq<Rule>, t: Trace, base: seq<Rule>)
    requires HandledOf(t) == base + MatchedOf(t, After)
    requires forall i :: 0 <= i < |post| ==> After(post[i])
    ensures var t' := RunPost(env, post, t).trace;
            HandledOf(t') == base + MatchedOf(t', After)
    decreases |post|
  {
    if post != [] {
      var rule := post[0];
      var ok := Check(env, rule, t);
      var t1 := t + [Checked(rule, ok)];
      CheckMatches(t, rule, ok, After);
      if !ok {
        PostRunsMatched(env, post[1..], t1, base);
      } else {
        HandledByRule(env, rule, t1, After);
        var r := HandleAndReport(env, rule, t1);
        AppendAssociates(base, MatchedOf(t, After), [rule]);
        if r.outcome.Done? {
          PostRunsMatched(env, post[1..], r.trace, base);
        }
      }
    }
  }

  /** A default rule that is a request rule runs before the other rules if it lets the
      request go on, and after them if it terminates it. */
  predicate GoesFirst(default: Option<Rule>) {
    default.Some? && !IsResponseRule(default.value) && !IsTerminating(default.value.exec) && !IsBypass(default.value.exec)
  }

  predicate GoesLast(default: Option<Rule>) {
    default.Some? && !IsResponseRule(default.value) && IsTerminating(default.value.exec)
  }

  function Only(cond: bool, default: Option<Rule>): seq<Rule> {
    if cond && default.Some? then [default.value] else []
  }

  /** Who runs before the upstream: the default rule first, or the matching rules, or the
      default rule last - and last only if the request got through and nothing matched. */
  lemma {:induction false} WhoRunsBefore(env: Env, default: Option<Rule>, pre: seq<Rule>)
    ensures var first := DefaultFirst(env, default);
            var p := if first.callUpstream then RunPre(env, pre, first.trace, false) else first;
            var t := Pre(env, default, pre).trace;
            HandledOf(t) == Only(GoesFirst(default), default) + MatchedOf(t, NoBypass)
                            + Only(GoesLast(default) && p.callUpstream && MatchedOf(t, AnyRule) == [], default)
  {
    var first := DefaultFirst(env, default);
    var base := Only(GoesFirst(default), default);
    if GoesFirst(default) {
      HandledByRule(env, default.value, [], NoBypass);
      HandledByRule(env, default.value, [], AnyRule);
      assert [] + [default.value] == base;
    }
    assert HandledOf(first.trace) == base + MatchedOf(first.trace, NoBypass);
    PreRunsMatched(env, pre, first.trace, false, base);
    var p := if first.callUpstream then RunPre(env, pre, first.trace, false) else first;
    assert p.matched <==> MatchedOf(p.trace, AnyRule) != [];
    if GoesLast(default) && p.callUpstream && !p.matched {
      HandledByRule(env, default.value, p.trace, NoBypass);
      HandledByRule(env, default.value, p.trace, AnyRule);
    } else {
      var all := base + MatchedOf(p.trace, NoBypass);
      assert all + [] == all;
    }
  }

  /** Who runs after it: the matching response rules, and a default rule that is one if
      none of them interrupted the request. */
  lemma {:induction false} WhoRunsAfter(env: Env, default: Option<Rule>, post: seq<Rule>, t: Trace)
    requires MatchedOf(t, After) == [] && forall i :: 0 <= i < |post| ==> After(post[i])
    ensures var t' := Post(env, default, post, t);
            HandledOf(t') == HandledOf(t) + MatchedOf(t', After)
                             + Only(default.Some? && IsResponseRule(default.value) && RunPost(env, post, t).outcome.Done?, default)
  {
    var r := RunPost(env, post, t);
    assert HandledOf(t) + [] == HandledOf(t);
    PostRunsMatched(env, post, t, HandledOf(t));
    var all := HandledOf(t) + MatchedOf(r.trace, After);
    assert all + [] == all;
    if r.outcome.Done? && default.Some? && IsResponseRule(default.value) {
      HandledByRule(env, default.value, r.trace, After);
    }
  }

  lemma {:induction false} LastDefaultIsListed(rules: seq<Rule>)
    ensures LastDefault(rules).Some? ==> LastDefault(rules).value in rules
  {
    if rules != [] {
      LastDefaultIsListed(rules[..|rules| - 1]);
    }
  }

  lemma {:induction false} PhaseRules(rules: seq<Rule>, r: Rule)
    ensures r in BeforeUpstream(LastDefault(rules), Select(rules, Before)) ==> r in rules && !IsResponseRule(r)
    ensures r in AfterUpstream(LastDefault(rules), Select(rules, After)) ==> r in rules && IsResponseRule(r)
  {
    SelectedHold(rules, Before, r);
    SelectedHold(rules, After, r);
    LastDefaultIsListed(rules);
  }

  /** `t` calls the upstream at most once, with request rules of the list acting only
      before the call and response rules only after it (or after the decision not to
      call), and calls it exactly when no request rule interrupted the request. */
  ghost predicate WellServed(rules: seq<Rule>, t: Trace) {
    && (forall i, j :: 0 <= i < j < |t| ==> !(t[i].Upstream? && t[j].Upstream?))
    && (forall i :: 0 <= i < |t| && !t[i].Upstream? ==> t[i].rule in rules)
    && (forall i, j :: 0 <= i < j < |t| && t[i].Upstream? ==> IsResponseRule(t[j].rule))
    && (forall i, j :: 0 <= i < j < |t| && t[j].Upstream? ==> !IsResponseRule(t[i].rule))
    && (forall i, j :: 0 <= i < j < |t| && !t[i].Upstream? && !t[j].Upstream? && IsResponseRule(t[i].rule) ==>
          IsResponseRule(t[j].rule))
    && (Upstream in t <==> forall i :: 0 <= i < |t| && Interrupted(t[i]) ==> IsResponseRule(t[i].rule))
  }

  lemma {:induction false} TwoPhasesWellServed(rules: seq<Rule>, t: Trace, k: nat, call: bool)
    requires k + (if call then 1 else 0) <= |t| && (call ==> t[k].Upstream?)
    requires forall i :: 0 <= i < k ==> !t[i].Upstream? && t[i].rule in rules && !IsResponseRule(t[i].rule)
    requires forall i :: k + (if call then 1 else 0) <= i < |t| ==>
               !t[i].Upstream? && t[i].rule in rules && IsResponseRule(t[i].rule)
    requires call <==> forall i :: 0 <= i < k ==> !Interrupted(t[i])
    ensures WellServed(rules, t)
  {}

  lemma {:induction false} GeneralIsWellServed(env: Env, rules: seq<Rule>)
    ensures WellServed(rules, ServeGeneral(env, LastDefault(rules), Select(rules, Before), Select(rules, After)))
  {
    var default, pre, post := LastDefault(rules), Select(rules, Before), Select(rules, After);
    var t := ServeGeneral(env, default, pre, post);
    var p := Pre(env, default, pre);
    RequestPhases(env, default, pre, post);
    forall r: Rule
      ensures r in BeforeUpstream(default, pre) ==> r in rules && !IsResponseRule(r)
      ensures r in AfterUpstream(default, post) ==> r in rules && IsResponseRule(r)
    {
      PhaseRules(rules, r);
    }
    assert p.callUpstream ==> t[|p.trace|] == UpToCall(p)[|p.trace|];
    TwoPhasesWellServed(rules, t, |p.trace|, p.callUpstream);
  }

  lemma {:induction false} RequestRuleThenCall(rules: seq<Rule>, rule: Rule, t: Trace, quiet: bool)
    requires rule in rules && !IsResponseRule(rule) && Segment([], t, [rule], quiet)
    ensures WellServed(rules, if quiet then t + [Upstream] else t)
  {
    forall i | 0 <= i < |t|
      ensures !t[i].Upstream? && t[i].rule == rule
    {
      assert t[i].rule in [rule];
    }
    TwoPhasesWellServed(rules, if quiet then t + [Upstream] else t, |t|, quiet);
  }

  lemma {:induction false} CallThenResponseRule(rules: seq<Rule>, rule: Rule, t: Trace, quiet: bool)
    requires rule in rules && IsResponseRule(rule) && Segment([Upstream], t, [rule], quiet)
    ensures WellServed(rules, t)
  {
    forall i | 1 <= i < |t|
      ensures !t[i].Upstream? && t[i].rule == rule
    {
      assert t[i].rule in [rule];
    }
    assert t[0] == [Upstream][0];
    TwoPhasesWellServed(rules, t, 0, true);
  }

  lemma {:induction false} BeforeIsWellServed(env: Env, rules: seq<Rule>, rule: Rule)
    requires rule in rules && !IsResponseRule(rule)
    ensures WellServed(rules, Serve(env, DefaultBefore(rule)))
  {
    RuleRuns(env, rule, []);
    var r := HandleAndReport(env, rule, []);
    RequestRuleThenCall(rules, rule, r.trace, r.outcome.Done?);
  }

  lemma {:induction false} AfterIsWellServed(env: Env, rules: seq<Rule>, rule: Rule)
    requires rule in rules && IsResponseRule(rule)
    ensures WellServed(rules, Serve(env, DefaultAfter(rule)))
  {
    RuleRuns(env, rule, [Upstream]);
    var r := HandleAndReport(env, rule, [Upstream]);
    CallThenResponseRule(rules, rule, r.trace, r.outcome.Done?);
  }

  lemma {:induction false} PassIsWellServed(env: Env, rules: seq<Rule>)
    ensures WellServed(rules, Serve(env, PassThrough))
  {
    TwoPhasesWellServed(rules, [Upstream], 0, true);
  }

  /** The end-to-end law, for every rule list and every behaviour of the environment. */
  lemma {:induction false} EveryRequestIsWellServed(env: Env, rules: seq<Rule>)
    ensures WellServed(rules, Serve(env, Compiled(rules)))
  {
    if Select(rules, NamedOtherwise) != [] {
      GeneralIsWellServed(env, rules);
    } else if LastDefault(rules).Some? {
      LastDefaultIsListed(rules);
      var default := LastDefault(rules).value;
      if IsBypass(default.exec) {
        PassIsWellServed(env, rules);
      } else if IsResponseRule(default) {
        AfterIsWellServed(env, rules, default);
      } else {
        BeforeIsWellServed(env, rules, default);
      }
    } else {
      PassIsWellServed(env, rules);
    }
  }

  // ---------------------------------------------------------------- the special cases

  /** What the outside sees: commands, upstream calls and reported errors. */
  function Effects(t: Trace): Trace {
    if t == [] then []
    else Effects(t[..|t| - 1]) + (if t[|t| - 1].Checked? || t[|t| - 1].Handled? then [] else [t[|t| - 1]])
  }

  /** What a parsed `do` holds: at least one command, in a sequence `BuildCmd` accepts. */
  predicate WellFormed(exec: seq<Command>) {
    exec != [] && ReturnsLast(exec)
  }

  lemma {:induction false} EffectsKeep(t: Trace, i: nat)
    requires i < |t| && !t[i].Checked? && !t[i].Handled?
    ensures t[i] in Effects(t)
    decreases |t|
  {
    if i < |t| - 1 {
      EffectsKeep(t[..|t| - 1], i);
    }
  }

  /** The first command of a rule always runs, unless it is a bypass. */
  lemma {:induction false} FirstCommandRuns(env: Env, rule: Rule, t: Trace)
    requires rule.exec != [] && !rule.exec[0].Bypass?
    ensures |HandleAndReport(env, rule, t).trace| > |t| && HandleAndReport(env, rule, t).trace[|t|].Ran?
  {
    CommandsRun(env, rule, rule.exec[1..], RunCommand(env, rule, rule.exec[0], t).trace);
  }

  lemma {:induction false} ResponseDefaultServes(env: Env, default: Rule)
    requires IsResponseRule(default)
    ensures ServeGeneral(env, Some(default), [], []) == HandleAndReport(env, default, [Upstream]).trace
  {
    assert [] + [Upstream] == [Upstream];
  }

  lemma {:induction false} BypassDefaultServes(env: Env, default: Rule)
    requires !IsResponseRule(default) && IsBypass(default.exec)
    ensures ServeGeneral(env, Some(default), [], []) == [Upstream]
  {
    assert Pre(env, Some(default), []) == Phase([], true, false, false);
    assert [] + [Upstream] == [Upstream];
  }

  lemma {:induction false} RequestDefaultServes(env: Env, default: Rule)
    requires !IsResponseRule(default) && default.exec != [] && !IsBypass(default.exec)
    ensures var r := HandleAndReport(env, default, []);
            ServeGeneral(env, Some(default), [], []) == if r.outcome.Done? then r.trace + [Upstream] else r.trace
  {
    var r := HandleAndReport(env, default, []);
    RuleRuns(env, default, []);
    var p := Pre(env, Some(default), []);
    assert p.trace == r.trace && p.callUpstream == r.outcome.Done?;
    assert r.trace + [] == r.trace;
  }

  lemma {:induction false} BypassAfterResponse(env: Env, default: Rule)
    requires WellFormed(default.exec) && IsBypass(default.exec)
    ensures Effects(HandleAndReport(env, default, [Upstream]).trace) == [Upstream] <==> |default.exec| == 1
  {
    var t := HandleAndReport(env, default, [Upstream]).trace;
    if |default.exec| > 1 {
      FirstCommandRuns(env, default, [Upstream]);
      EffectsKeep(t, 1);
      assert t[1] !in [Upstream];
    } else {
      assert t == [Upstream, Handled(default, Terminated)];
      assert t[..1] == [Upstream] && t[..1][..0] == [];
    }
  }

  /** The special handlers for a lone default rule do what the general handler would,
      for every behaviour of the commands, exactly unless the default looks at the
      response and ends in a bypass after other commands. */
  lemma {:induction false} SpecialCasesAgree(env: Env, default: Rule)
    requires WellFormed(default.exec)
    ensures Effects(Serve(env, DefaultOnly(default))) == Effects(ServeGeneral(env, Some(default), [], []))
            <==> !(IsBypass(default.exec) && IsResponseRule(default) && |default.exec| > 1)
  {
    if IsResponseRule(default) {
      ResponseDefaultServes(env, default);
      if IsBypass(default.exec) {
        BypassAfterResponse(env, default);
        assert Effects([Upstream]) == [Upstream] by { assert [Upstream][..0] == []; }
      }
    } else if IsBypass(default.exec) {
      BypassDefaultServes(env, default);
    } else {
      RequestDefaultServes(env, default);
    }
  }

  /** A default that sets something in the response and then bypasses: with other rules
      beside it its command runs after the upstream, alone it does not run at all. */
  lemma {:induction false} SpecialCaseDiffers(env: Env, id: nat)
    requires env.run(OnResponse(id), [Upstream]).Done?
    ensures var default := Rule("default", false, false, [OnResponse(id), Bypass], true);
            && Effects(Serve(env, DefaultOnly(default))) == [Upstream]
            && Effects(ServeGeneral(env, Some(default), [], [])) == [Upstream, Ran(default, OnResponse(id), Done)]
  {
    var c := OnResponse(id);
    var default := Rule("default", false, false, [c, Bypass], true);
    var ran := Ran(default, c, Done);
    assert [c, Bypass][1..] == [Bypass];
    assert [Upstream] + [ran] == [Upstream, ran];
    var t := HandleAndReport(env, default, [Upstream]).trace;
    assert RunCommand(env, default, c, [Upstream]) == Result([Upstream, ran], Done);
    assert RunCommands(env, default, [Bypass], [Upstream, ran]) == Result([Upstream, ran], Terminated);
    assert t == [Upstream, ran, Handled(default, Terminated)];
    assert t[..2] == [Upstream, ran] && [Upstream, ran][..1] == [Upstream] && [Upstream][..0] == [];
    assert Effects([]) == [] && Effects([Upstream]) == [Upstream] && Effects([Upstream, ran]) == [Upstream, ran];
    ResponseDefaultServes(env, default);
  }

  /** A request rule that matches and ends in a bypass runs none of its other commands. */
  lemma {:induction false} BypassSkipsItsCommands(env: Env, rule: Rule, pre: seq<Rule>, t: Trace)
    requires IsBypass(rule.exec) && Check(env, rule, t)
    ensures RunPre(env, [rule] + pre, t, false) == Phase(t + [Checked(rule, true)], true, true, false)
  {}
}

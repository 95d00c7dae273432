/** When the tokenizer crashes: it looks up every character that is not escaped in a table
    of 256 entries. */
module RuleCrash {
  import opened RuleParser

  /** Whether the character at `i` follows a backslash that is not itself escaped. */
  predicate EscapedAt(v: string, i: nat)
    requires i <= |v|
  {
    i > 0 && v[i - 1] == '\\' && !EscapedAt(v, i - 1)
  }

  /** How many brackets are open before `i`, quotes or not. */
  function DepthAt(v: string, i: nat): nat
    requires i <= |v|
  {
    if i == 0 then 0
    else
      var d, c := DepthAt(v, i - 1), v[i - 1];
      if EscapedAt(v, i - 1) then d
      else if c == '(' then d + 1
      else if c == ')' && d > 0 then d - 1
      else d
  }

  /** A closing bracket that closes nothing, at which the tokenizer gives up. */
  predicate StrayAt(v: string, i: nat) {
    i < |v| && !EscapedAt(v, i) && v[i] == ')' && DepthAt(v, i) == 0
  }

  /** A character that is not escaped and not in the table. */
  predicate UnreadableAt(v: string, i: nat) {
    i < |v| && !EscapedAt(v, i) && !InTable(v[i])
  }

  lemma {:induction false} StepTracks(env: Environment, s: State, c: char)
    requires s.escaped || (InTable(c) && (c == ')' ==> s.brackets > 0))
    ensures var p := Step(env, s, c);
            && p.Going? && p.state.escaped == (!s.escaped && c == '\\')
            && p.state.brackets == if s.escaped then s.brackets else Depth(s.brackets, c)
  {}

  /** Up to the first stray bracket or unreadable character the tokenizer goes on, whatever
      the quotes and the environment. */
  lemma {:induction false} GoesOn(env: Environment, v: string, i: nat)
    requires i <= |v| && forall j :: 0 <= j < i ==> !StrayAt(v, j) && !UnreadableAt(v, j)
    ensures var p := Run(env, START, v[..i]);
            p.Going? && p.state.escaped == EscapedAt(v, i) && p.state.brackets == DepthAt(v, i)
  {
    if i > 0 {
      GoesOn(env, v, i - 1);
      assert !StrayAt(v, i - 1) && !UnreadableAt(v, i - 1);
      RunNext(env, v, i - 1);
      StepTracks(env, Run(env, START, v[..i - 1]).state, v[i - 1]);
    }
  }

  lemma {:induction false} RunNext(env: Environment, v: string, i: nat)
    requires i < |v| && Run(env, START, v[..i]).Going?
    ensures Run(env, START, v[..i + 1]) == Step(env, Run(env, START, v[..i]).state, v[i])
  {
    RunConcat(env, START, v[..i], [v[i]]);
    RunOne(env, Run(env, START, v[..i]).state, v[i]);
    assert v[..i + 1] == v[..i] + [v[i]];
  }

  /** What happens there. */
  lemma {:induction false} EndsAt(env: Environment, v: string, i: nat)
    requires (forall j :: 0 <= j < i ==> !StrayAt(v, j) && !UnreadableAt(v, j)) && (StrayAt(v, i) || UnreadableAt(v, i))
    ensures Run(env, START, v).Crash? <==> UnreadableAt(v, i)
    ensures Run(env, START, v).Stopped? <==> StrayAt(v, i)
  {
    GoesOn(env, v, i);
    RunNext(env, v, i);
    RunConcat(env, START, v[..i + 1], v[i + 1..]);
    assert v == v[..i + 1] + v[i + 1..];
  }

  lemma {:induction false} FirstEnd(v: string, i: nat) returns (m: nat)
    requires StrayAt(v, i) || UnreadableAt(v, i)
    ensures m <= i && (StrayAt(v, m) || UnreadableAt(v, m))
    ensures forall j :: 0 <= j < m ==> !StrayAt(v, j) && !UnreadableAt(v, j)
  {
    m := i;
    if j :| 0 <= j < i && (StrayAt(v, j) || UnreadableAt(v, j)) {
      m := FirstEnd(v, j);
    }
  }

  /** The tokenizer crashes if and only if some character is neither escaped nor in the
      table, and no stray closing bracket comes before it. Quotes and the environment do not
      matter. */
  lemma {:induction false} CrashesIffUnreadable(env: Environment, v: string)
    ensures ParseText(env, v).Crashed? <==>
            exists i :: 0 <= i < |v| && UnreadableAt(v, i) && forall j :: 0 <= j < i ==> !StrayAt(v, j)
  {
    if i :| 0 <= i < |v| && (StrayAt(v, i) || UnreadableAt(v, i)) {
      var m := FirstEnd(v, i);
      EndsAt(env, v, m);
    } else {
      GoesOn(env, v, |v|);
      assert v[..|v|] == v;
    }
  }

  /** Where the table ends. */
  lemma {:induction false} TableEnds(c: char)
    ensures InTable(c) <==> c <= '\U{00FF}'
  {}

  /** A lone snowman crashes it; behind a stray bracket or a backslash it does not. */
  lemma {:induction false} SnowmanCrashes(env: Environment)
    ensures ParseText(env, "\U{2603}").Crashed?
    ensures ParseText(env, ")\U{2603}") == Parsed("", [], [UnterminatedBrackets])
    ensures !ParseText(env, "\\\U{2603}").Crashed?
  {
    var a, b := ")\U{2603}", "\\\U{2603}";
    assert a[0] == ')';
    assert b[0] == '\\' && b[1..] == "\U{2603}";
    RunOne(env, START.(escaped := true), '\U{2603}');
  }
}

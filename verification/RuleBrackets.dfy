/** What becomes of a printed argument list with unbalanced brackets: it never comes back. */
module RuleBrackets {
  import opened Common
  import opened RuleParser

  /** What was read is not lost again. */
  lemma {:induction false} ArgsGrow(env: Environment, s: State, v: string)
    requires s.subject != ""
    ensures var p := Run(env, s, v); !p.Crash? ==> p.state.subject == s.subject && s.args <= p.state.args
    decreases |v|
  {
    if v != "" {
      var p := Step(env, s, v[0]);
      StepGrows(env, s, v[0]);
      if p.Going? {
        ArgsGrow(env, p.state, v[1..]);
      }
    }
  }

  lemma {:induction false} StepGrows(env: Environment, s: State, c: char)
    requires s.subject != ""
    ensures var p := Step(env, s, c); !p.Crash? ==> p.state.subject == s.subject && s.args <= p.state.args
  {
    if s.escaped {
    } else if IsQuote(c) {
    } else if c == ' ' {
    } else {
      assert Step(env, s, c).Going? ==> Step(env, s, c).state.args == s.args;
    }
  }

  /** The argument at `k` was read, and is not `text`. */
  predicate Misread(s: State, k: nat, text: string) {
    s.subject != "" && k < |s.args| && s.args[k] != text
  }

  /** The text did not come back with `text` as its argument `k`. */
  predicate Lost(r: Parsed, k: nat, text: string) {
    r.Parsed? && r.errors == [] ==> k < |r.args| && r.args[k] != text
  }

  lemma {:induction false} MisreadIsLost(env: Environment, s: State, v: string, k: nat, text: string)
    requires Misread(s, k, text)
    ensures Lost(Finish(Run(env, s, v)), k, text)
  {
    ArgsGrow(env, s, v);
  }

  /** A text is never itself with a character in front and a different one cut off. */
  lemma {:induction false} NoShift(q: char, done: string, c: char, rest: string)
    requires c != q
    ensures [q] + done != done + [c] + rest
  {
    if [q] + done == done + [c] + rest {
      assert |rest| == 0;
      AllSame(q, done, c);
    }
  }

  lemma {:induction false} AllSame(q: char, done: string, c: char)
    requires [q] + done == done + [c]
    ensures c == q
  {
    if done != "" {
      assert done[0] == q by { assert ([q] + done)[0] == (done + [c])[0]; }
      assert ([q] + done)[1..] == done && (done + [c])[1..] == done[1..] + [c];
      assert done == [q] + done[1..];
      AllSame(q, done[1..], c);
    } else {
      assert ([q] + done)[0] == q && (done + [c])[0] == c;
    }
  }

  /** Outside quotes, while an argument that was written in quotes `q` is read: its opening
      quote and the part `done` are in the buffer. */
  predicate Reading(s: State, k: nat, q: char, done: string) {
    && Calm(s) && s.quote == NO_QUOTE && s.subject != "" && |s.args| == k && IsQuote(q)
    && s.buf == [q] + done
  }

  /** A part that ends early, or with its quotes, is not the argument. */
  lemma {:induction false} EndsWrong(s: State, k: nat, q: char, done: string, text: string)
    requires Reading(s, k, q, done) && [q] + done != text
    ensures Misread(Flush(s, false), k, text)
  {
    assert TrimLeft(s.buf) == s.buf;
  }

  predicate EndsPart(s: State, q: char, c: char) {
    c == ' ' || (IsQuote(c) && c != q && s.brackets == 0)
  }

  /** One more character of the argument: it goes to the buffer, or ends the part, or stops. */
  lemma {:induction false} ReadChar(env: Environment, s: State, k: nat, q: char, done: string, c: char)
    requires Reading(s, k, q, done) && InTable(c) && (q == '`' ==> c != '`')
    ensures var p := Run(env, s, EscapeChar(q, c));
            if EndsPart(s, q, c) then p.Going? && p.state.args == Flush(s, false).args && p.state.subject == Flush(s, false).subject
            else p.Stopped? || (p.Going? && Reading(p.state, k, q, done + [c]))
  {
    assert [q] + done + [c] == [q] + (done + [c]);
    if c == '\\' || c == q {
      RunTwo(env, s, '\\', c);
    } else if c == '$' {
      RunTwo(env, s, '$', '$');
    } else {
      RunOne(env, s, c);
    }
  }

  lemma {:induction false} EscapeThen(q: char, rest: string, v: string)
    requires rest != ""
    ensures Escape(q, rest) + v == EscapeChar(q, rest[0]) + (Escape(q, rest[1..]) + v)
  {}

  lemma {:induction false} ReadNext(env: Environment, s: State, k: nat, q: char, done: string, rest: string, v: string) returns (p: Progress)
    requires Reading(s, k, q, done) && rest != "" && InTable(rest[0]) && (q == '`' ==> rest[0] != '`')
    ensures Run(env, s, Escape(q, rest) + v) == if p.Going? then Run(env, p.state, Escape(q, rest[1..]) + v) else p
    ensures if EndsPart(s, q, rest[0]) then
              p.Going? && p.state.args == Flush(s, false).args && p.state.subject == Flush(s, false).subject
            else p.Stopped? || (p.Going? && Reading(p.state, k, q, done + [rest[0]]))
  {
    EscapeThen(q, rest, v);
    RunConcat(env, s, EscapeChar(q, rest[0]), Escape(q, rest[1..]) + v);
    ReadChar(env, s, k, q, done, rest[0]);
    p := Run(env, s, EscapeChar(q, rest[0]));
  }

  lemma {:induction false} EndsEarly(env: Environment, s: State, k: nat, q: char, done: string, rest: string, s': State, v: string)
    requires Reading(s, k, q, done) && rest != "" && EndsPart(s, q, rest[0])
    requires s'.args == Flush(s, false).args && s'.subject == Flush(s, false).subject
    ensures Lost(Finish(Run(env, s', v)), k, done + rest)
  {
    assert done + rest == done + [rest[0]] + rest[1..];
    NoShift(q, done, rest[0], rest[1..]);
    EndsWrong(s, k, q, done, done + rest);
    MisreadIsLost(env, s', v, k, done + rest);
  }

  /** Once a bracket is left open, a quoted argument is misread. */
  lemma {:induction false} RestIsLost(env: Environment, s: State, k: nat, q: char, done: string, rest: string, more: seq<Arg>)
    requires Reading(s, k, q, done) && AllInTable(rest) && (q == '`' ==> '`' !in rest)
    ensures Lost(Finish(Run(env, s, Escape(q, rest) + ([q] + PrintArgs(more)))), k, done + rest)
    decreases |rest|
  {
    var v := [q] + PrintArgs(more);
    if rest == "" {
      assert Escape(q, rest) + v == v && done + rest == done;
      ClosingIsLost(env, s, k, q, done, more);
    } else {
      var p := ReadNext(env, s, k, q, done, rest, v);
      assert done + rest == done + [rest[0]] + rest[1..];
      if EndsPart(s, q, rest[0]) {
        EndsEarly(env, s, k, q, done, rest, p.state, Escape(q, rest[1..]) + v);
      } else if p.Going? {
        RestIsLost(env, p.state, k, q, done + [rest[0]], rest[1..], more);
      }
    }
  }

  lemma {:induction false} ClosingIsLost(env: Environment, s: State, k: nat, q: char, text: string, more: seq<Arg>)
    requires Reading(s, k, q, text)
    ensures Lost(Finish(Run(env, s, [q] + PrintArgs(more))), k, text)
  {
    RunConcat(env, s, [q], PrintArgs(more));
    RunOne(env, s, q);
    var s' := Run(env, s, [q]).state;
    if s.brackets == 0 {
      EndsWrong(s, k, q, text, text);
      MisreadIsLost(env, s', PrintArgs(more), k, text);
    } else {
      assert [q] + text + [q] == [q] + (text + [q]);
      QuotesAreKept(env, s', k, q, text, more);
    }
  }

  /** With a bracket open the quotes are taken as part of the argument. */
  lemma {:induction false} QuotesAreKept(env: Environment, s: State, k: nat, q: char, text: string, more: seq<Arg>)
    requires Reading(s, k, q, text + [q]) && s.brackets > 0
    ensures Lost(Finish(Run(env, s, PrintArgs(more))), k, text)
  {
    if more != [] {
      EndsWrong(s, k, q, text + [q], text);
      var f := SpaceEnds(env, s, more);
      MisreadIsLost(env, f, PrintArg(more[0]) + PrintArgs(more[1..]), k, text);
    }
  }

  lemma {:induction false} SpaceFirst(more: seq<Arg>)
    requires more != []
    ensures PrintArgs(more) == " " + (PrintArg(more[0]) + PrintArgs(more[1..]))
  {}

  /** The space before an argument ends what was read before. */
  lemma {:induction false} SpaceEnds(env: Environment, s: State, more: seq<Arg>) returns (f: State)
    requires more != [] && Calm(s) && s.quote == NO_QUOTE
    ensures f == Flush(s, false)
    ensures Run(env, s, PrintArgs(more)) == Run(env, f, PrintArg(more[0]) + PrintArgs(more[1..]))
  {
    f := Flush(s, false);
    var v := PrintArg(more[0]) + PrintArgs(more[1..]);
    SpaceFirst(more);
    RunConcat(env, s, " ", v);
    RunOne(env, s, ' ');
  }

  /** A balanced word leaves open what was open. */
  lemma {:induction false} WordKeepsOpen(env: Environment, s: State, text: string, depth: nat)
    requires Calm(s) && s.quote == NO_QUOTE && Balanced(text, depth) && depth <= s.brackets && AllInTable(text)
    requires forall i :: 0 <= i < |text| ==> PlainChar(text[i])
    ensures Run(env, s, text) == Going(s.(buf := s.buf + text, brackets := s.brackets - depth))
    decreases |text|
  {
    if text == "" {
      assert s.buf + text == s.buf;
    } else {
      var c := text[0];
      var s' := s.(buf := s.buf + [c], brackets := Depth(s.brackets, c));
      assert Step(env, s, c) == Going(s');
      WordKeepsOpen(env, s', text[1..], Depth(depth, c));
      assert s.buf + [c] + text[1..] == s.buf + text;
    }
  }

  /** Between arguments, with a bracket left open; once the pending part is ended, `k`
      arguments have been read. */
  predicate Open(s: State, k: nat) {
    && Calm(s) && s.quote == NO_QUOTE && s.brackets > 0 && s.subject != ""
    && Flush(s, false).buf == "" && |Flush(s, false).args| == k
  }

  /** The parsed text is not the list that was printed. */
  predicate NotBack(r: Parsed, k: nat, more: seq<Arg>) {
    r.Parsed? && r.errors == [] ==> |r.args| != k + |more| || exists i :: 0 <= i < |more| && r.args[k + i] != more[i].text
  }

  function ReadBack(env: Environment, s: State, more: seq<Arg>): Parsed {
    Finish(Run(env, s, PrintArgs(more)))
  }

  lemma {:induction false} OpenIsLost(env: Environment, s: State, k: nat, more: seq<Arg>)
    requires Open(s, k) && forall i :: 0 <= i < |more| ==> Printable(more[i])
    ensures NotBack(ReadBack(env, s, more), k, more)
    decreases |more|
  {
    if more != [] {
      var arg := more[0];
      var f := SpaceEnds(env, s, more);
      match arg.style
      case Bare =>
        var s' := OpenWord(env, f, k, arg.text, PrintArgs(more[1..]));
        OpenIsLost(env, s', k + 1, more[1..]);
        NotBackNext(ReadBack(env, s', more[1..]), k, more);
      case Quoted(q) =>
        OpenQuoted(env, f, k, q, arg.text, more[1..]);
    }
  }

  lemma {:induction false} OpenWord(env: Environment, f: State, k: nat, text: string, v: string) returns (s: State)
    requires Open(f, k) && f.buf == "" && IsWord(text)
    ensures Open(s, k + 1) && Run(env, f, text + v) == Run(env, s, v)
  {
    RunConcat(env, f, text, v);
    WordKeepsOpen(env, f, text, 0);
    s := Run(env, f, text).state;
    assert "" + text == text && TrimLeft(text) == text;
  }

  lemma {:induction false} QuotedThen(q: char, text: string, v: string)
    ensures PrintArg(Arg(Quoted(q), text)) + v == [q] + (Escape(q, text) + ([q] + v))
  {}

  /** With a bracket open a quote is an ordinary character. */
  lemma {:induction false} QuoteIsWritten(env: Environment, f: State, k: nat, q: char, w: string) returns (s: State)
    requires Open(f, k) && f.buf == "" && IsQuote(q)
    ensures Reading(s, k, q, "") && Run(env, f, [q] + w) == Run(env, s, w)
  {
    RunConcat(env, f, [q], w);
    RunOne(env, f, q);
    assert "" + [q] == [q] && [q] + "" == [q];
    s := f.(buf := [q]);
  }

  lemma {:induction false} OpenQuoted(env: Environment, f: State, k: nat, q: char, text: string, more: seq<Arg>)
    requires Open(f, k) && f.buf == "" && Printable(Arg(Quoted(q), text))
    ensures Lost(Finish(Run(env, f, PrintArg(Arg(Quoted(q), text)) + PrintArgs(more))), k, text)
  {
    QuotedThen(q, text, PrintArgs(more));
    var s := QuoteIsWritten(env, f, k, q, Escape(q, text) + ([q] + PrintArgs(more)));
    assert "" + text == text;
    RestIsLost(env, s, k, q, "", text, more);
  }

  lemma {:induction false} NotBackNext(r: Parsed, k: nat, more: seq<Arg>)
    requires more != [] && NotBack(r, k + 1, more[1..])
    ensures NotBack(r, k, more)
  {
    if r.Parsed? && r.errors == [] && |r.args| == k + |more| {
      var i :| 0 <= i < |more[1..]| && r.args[k + 1 + i] != more[1..][i].text;
      assert r.args[k + (i + 1)] != more[i + 1].text;
    }
  }

  lemma {:induction false} StaysOpen(s: State, subject: string, args: seq<string>, text: string, s': State)
    requires Settled(s, subject, args) && LeavesOpen(s', Flush(s, false).(args := args + [text]))
    ensures Open(s', |args| + 1)
  {}

  /** The first argument, and what is read after it. */
  lemma {:induction false} FirstArg(env: Environment, s: State, subject: string, args: seq<string>, more: seq<Arg>) returns (p: Progress)
    requires Settled(s, subject, args) && more != [] && Printable(more[0])
    ensures ReadBack(env, s, more) == if p.Going? then ReadBack(env, p.state, more[1..]) else Finish(p)
    ensures if Balanced(more[0].text, 0) then p.Going? && Settled(p.state, subject, args + [more[0].text])
            else p.Stopped? || (p.Going? && Open(p.state, |args| + 1))
  {
    var first := " " + PrintArg(more[0]);
    RunConcat(env, s, first, PrintArgs(more[1..]));
    ArgRead(env, s, subject, args, more[0]);
    p := Run(env, s, first);
    if !Balanced(more[0].text, 0) && p.Going? {
      StaysOpen(s, subject, args, more[0].text, p.state);
    }
  }

  lemma {:induction false} UnbalancedFirst(env: Environment, s: State, subject: string, args: seq<string>, more: seq<Arg>)
    requires Settled(s, subject, args) && more != [] && (forall i :: 0 <= i < |more| ==> Printable(more[i]))
    requires !Balanced(more[0].text, 0)
    ensures NotBack(ReadBack(env, s, more), |args|, more)
  {
    var p := FirstArg(env, s, subject, args, more);
    if p.Stopped? {
      StoppedIsLost(p, |args|, more);
    } else {
      OpenIsLost(env, p.state, |args| + 1, more[1..]);
      NotBackNext(ReadBack(env, p.state, more[1..]), |args|, more);
    }
  }

  lemma {:induction false} PrintArgsSplit(args: seq<Arg>, n: nat)
    requires n <= |args|
    ensures PrintArgs(args) == PrintArgs(args[..n]) + PrintArgs(args[n..])
  {
    if n > 0 {
      var older, newer := args[1..][..n - 1], args[1..][n - 1..];
      AppendAssociates(" " + PrintArg(args[0]), PrintArgs(older), PrintArgs(newer));
      assert args[..n][1..] == older && args[n..] == newer;
      PrintArgsSplit(args[1..], n - 1);
    } else {
      assert args[..0] == [] && args[0..] == args;
      assert PrintArgs([]) + PrintArgs(args) == PrintArgs(args);
    }
  }

  lemma {:induction false} LostFurtherOn(r: Parsed, k: nat, n: nat, more: seq<Arg>)
    requires n <= |more| && NotBack(r, k + n, more[n..])
    ensures NotBack(r, k, more)
  {
    if r.Parsed? && r.errors == [] && |r.args| == k + |more| {
      var i :| 0 <= i < |more[n..]| && r.args[k + n + i] != more[n..][i].text;
      assert r.args[k + (n + i)] != more[n + i].text;
    }
  }

  /** A list whose argument `n` is the first with unbalanced brackets. */
  lemma {:induction false} UnbalancedIsLost(env: Environment, s: State, subject: string, more: seq<Arg>, n: nat)
    requires Settled(s, subject, []) && (forall i :: 0 <= i < |more| ==> Printable(more[i]))
    requires n < |more| && !Balanced(more[n].text, 0) && forall i :: 0 <= i < n ==> Balanced(more[i].text, 0)
    ensures NotBack(ReadBack(env, s, more), 0, more)
  {
    PrintArgsSplit(more, n);
    RunConcat(env, s, PrintArgs(more[..n]), PrintArgs(more[n..]));
    ArgsRead(env, s, subject, [], more[..n]);
    var s' := Run(env, s, PrintArgs(more[..n])).state;
    TextsLength(more[..n]);
    UnbalancedFirst(env, s', subject, [] + Texts(more[..n]), more[n..]);
    LostFurtherOn(ReadBack(env, s', more[n..]), 0, n, more);
  }

  lemma {:induction false} TextsLength(args: seq<Arg>)
    ensures |Texts(args)| == |args|
  {
    if args != [] {
      TextsAt(args, 0);
    }
  }

  lemma {:induction false} FirstUnbalanced(args: seq<Arg>, upTo: nat) returns (n: nat)
    requires upTo < |args| && !Balanced(args[upTo].text, 0)
    ensures n <= upTo && !Balanced(args[n].text, 0) && forall i :: 0 <= i < n ==> Balanced(args[i].text, 0)
  {
    n := upTo;
    if i :| 0 <= i < upTo && !Balanced(args[i].text, 0) {
      n := FirstUnbalanced(args, i);
    }
  }

  lemma {:induction false} StoppedIsLost(p: Progress, k: nat, more: seq<Arg>)
    requires p.Stopped?
    ensures NotBack(Finish(p), k, more)
  {}

  lemma {:induction false} TextsAt(args: seq<Arg>, i: nat)
    requires i < |args|
    ensures |Texts(args)| == |args| && Texts(args)[i] == args[i].text
  {
    if |args| > 1 {
      TextsAt(args[1..], if i > 0 then i - 1 else 0);
    }
  }

  /** Brackets cannot be escaped: whatever quotes are used, a list of arguments comes back
      if and only if the brackets of each of them are balanced. */
  lemma {:induction false} RoundTripIffBalanced(env: Environment, subject: string, args: seq<Arg>)
    requires IsWord(subject) && forall i :: 0 <= i < |args| ==> Printable(args[i])
    ensures ParseText(env, Print(subject, args)) == Parsed(subject, Texts(args), []) <==>
            forall i :: 0 <= i < |args| ==> Balanced(args[i].text, 0)
  {
    if u :| 0 <= u < |args| && !Balanced(args[u].text, 0) {
      var n := FirstUnbalanced(args, u);
      SubjectRead(env, subject);
      RunConcat(env, START, subject, PrintArgs(args));
      UnbalancedIsLost(env, Run(env, START, subject).state, subject, args, n);
      forall i | 0 <= i < |args|
        ensures |Texts(args)| == |args| && Texts(args)[i] == args[i].text
      {
        TextsAt(args, i);
      }
      TextsAt(args, n);
    } else {
      RoundTrip(env, subject, args);
    }
  }
}

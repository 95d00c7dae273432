/** The tokenizer of rule expressions: a subject and its arguments, with quotes,
    escapes, brackets and environment variables. */
module RuleParser {
  datatype ParseError = UnterminatedQuotes | UnterminatedBrackets | UnterminatedEnvVar | EnvVarNotFound(names: seq<string>)

  /** `errors` is empty on success. An unescaped character that is outside the 256-entry
      table of quote characters makes the tokenizer crash. */
  datatype Parsed = Parsed(subject: string, args: seq<string>, errors: seq<ParseError>) | Crashed

  type Environment = map<string, string>

  predicate IsSpace(c: char) {
    || c == ' ' || '\t' <= c <= '\r' || c == '\U{0085}' || c == '\U{00A0}' || c == '\U{1680}'
    || '\U{2000}' <= c <= '\U{200A}' || c == '\U{2028}' || c == '\U{2029}' || c == '\U{202F}'
    || c == '\U{205F}' || c == '\U{3000}'
  }

  predicate IsQuote(c: char) {
    c == '\"' || c == '\'' || c == '`'
  }

  /** What a backslash before `c` stands for. */
  function Unescape(c: char): string {
    if c == 'n' then "\n"
    else if c == 't' then "\t"
    else if c == 'r' then "\r"
    else if c == '\'' || c == '\"' || c == '\\' || c == ' ' then [c]
    else ['\\', c]
  }

  const NO_QUOTE: char := '\0'

  datatype State = State(
    subject: string, args: seq<string>, buf: string,
    escaped: bool, quote: char, brackets: nat,
    envVar: string, missing: seq<string>, inEnvVar: bool, expectingBrace: bool)

  const START := State("", [], "", false, NO_QUOTE, 0, "", [], false, false)

  function TrimLeft(s: string): string {
    if s == "" then "" else if IsSpace(s[0]) then TrimLeft(s[1..]) else s
  }

  /** Ends a part; an unquoted part that is all spaces is left in the buffer. */
  function Flush(s: State, quoted: bool): State {
    var part := if quoted then s.buf else TrimLeft(s.buf);
    if !quoted && part == "" then s
    else if s.subject == "" then s.(subject := part, buf := "")
    else s.(args := s.args + [part], buf := "")
  }

  function Write(s: State, text: string): State {
    s.(buf := s.buf + text)
  }

  datatype Progress = Going(state: State) | Stopped(state: State) | Crash

  predicate InTable(c: char) {
    c < '\U{0100}'
  }

  predicate AllInTable(v: string) {
    forall i :: 0 <= i < |v| ==> InTable(v[i])
  }

  function Step(env: Environment, s: State, c: char): Progress {
    if s.escaped then Going(Write(s, Unescape(c)).(escaped := false))
    else if !InTable(c) then Crash
    else
      var s := if s.expectingBrace && c != '{' && c != '$' then Write(s, "$").(expectingBrace := false) else s;
      if IsQuote(c) then
        if s.quote == NO_QUOTE && s.brackets == 0 then Going(Flush(s.(quote := c), false))
        else if c == s.quote then Going(Flush(s.(quote := NO_QUOTE), true))
        else Going(Write(s, [c]))
      else if c == '\\' then Going(s.(escaped := true))
      else if c == '$' then
        if s.expectingBrace then Going(Write(s, "$").(expectingBrace := false))
        else Going(s.(expectingBrace := true))
      else if c == '{' then
        if s.expectingBrace then Going(s.(inEnvVar := true, expectingBrace := false, envVar := ""))
        else Going(Write(s, [c]))
      else if c == '}' then
        if s.inEnvVar then
          if s.envVar in env then Going(Write(s, env[s.envVar]).(inEnvVar := false))
          else Going(s.(missing := s.missing + [s.envVar], inEnvVar := false))
        else Going(Write(s, [c]))
      else if c == '(' then Going(Write(s, [c]).(brackets := s.brackets + 1))
      else if c == ')' then
        if s.brackets == 0 then Stopped(s) else Going(Write(s, [c]).(brackets := s.brackets - 1))
      else if c == ' ' then
        if s.quote == NO_QUOTE then Going(Flush(s, false)) else Going(Write(s, [c]))
      else if s.inEnvVar then Going(s.(envVar := s.envVar + [c]))
      else Going(Write(s, [c]))
  }

  function Run(env: Environment, s: State, v: string): Progress
    decreases |v|
  {
    if v == "" then Going(s)
    else
      var p := Step(env, s, v[0]);
      if p.Going? then Run(env, p.state, v[1..]) else p
  }

  function Finish(p: Progress): Parsed {
    if p.Crash? then Crashed
    else if p.Stopped? then Parsed(p.state.subject, p.state.args, [UnterminatedBrackets])
    else
      var s := if p.state.expectingBrace then Write(p.state, "$") else p.state;
      var missing := if s.missing == [] then [] else [EnvVarNotFound(s.missing)];
      if s.quote != NO_QUOTE then Parsed(s.subject, s.args, [UnterminatedQuotes] + missing)
      else if s.brackets != 0 then Parsed(s.subject, s.args, [UnterminatedBrackets] + missing)
      else if s.inEnvVar then Parsed(s.subject, s.args, [UnterminatedEnvVar] + missing)
      else var s' := Flush(s, false); Parsed(s'.subject, s'.args, missing)
  }

  function ParseText(env: Environment, v: string): Parsed {
    Finish(Run(env, START, v))
  }

  /** One round of the tokenizer's loop. */
  method Consume(env: Environment, before: State, c: char) returns (s: State, stop: bool)
    requires before.escaped || InTable(c)
    ensures Step(env, before, c) == if stop then Stopped(s) else Going(s)
  {
    s, stop := before, false;
    if s.escaped {
      s := Write(s, Unescape(c)).(escaped := false);
      return;
    }
    if s.expectingBrace && c != '{' && c != '$' {
      s := Write(s, "$").(expectingBrace := false);
    }
    if IsQuote(c) {
      if s.quote == NO_QUOTE && s.brackets == 0 {
        s := Flush(s.(quote := c), false);
      } else if c == s.quote {
        s := Flush(s.(quote := NO_QUOTE), true);
      } else {
        s := Write(s, [c]);
      }
      return;
    }
    match c {
      case '\\' => s := s.(escaped := true);
      case '$' =>
        if s.expectingBrace {
          s := Write(s, "$").(expectingBrace := false);
        } else {
          s := s.(expectingBrace := true);
        }
      case '{' =>
        if s.expectingBrace {
          s := s.(inEnvVar := true, expectingBrace := false, envVar := "");
        } else {
          s := Write(s, [c]);
        }
      case '}' =>
        if s.inEnvVar {
          if s.envVar in env {
            s := Write(s, env[s.envVar]);
          } else {
            s := s.(missing := s.missing + [s.envVar]);
          }
          s := s.(inEnvVar := false);
        } else {
          s := Write(s, [c]);
        }
      case '(' => s := Write(s, [c]).(brackets := s.brackets + 1);
      case ')' =>
        if s.brackets == 0 {
          stop := true;
        } else {
          s := Write(s, [c]).(brackets := s.brackets - 1);
        }
      case ' ' =>
        if s.quote == NO_QUOTE {
          s := Flush(s, false);
        } else {
          s := Write(s, [c]);
        }
      case _ =>
        if s.inEnvVar {
          s := s.(envVar := s.envVar + [c]);
        } else {
          s := Write(s, [c]);
        }
    }
  }

  method Parse(env: Environment, v: string) returns (r: Parsed)
    ensures r == ParseText(env, v)
  {
    var s, stop := START, false;
    for i := 0 to |v|
      invariant Run(env, s, v[i..]) == Run(env, START, v)
    {
      assert v[i..][1..] == v[i + 1..];
      if !s.escaped && !InTable(v[i]) {
        return Crashed;
      }
      s, stop := Consume(env, s, v[i]);
      if stop {
        return Parsed(s.subject, s.args, [UnterminatedBrackets]);
      }
    }
    r := Finish(Going(s));
  }

  // ---------------------------------------------------------------- printing

  /** How an argument is written down. */
  datatype Style = Bare | Quoted(q: char)

  datatype Arg = Arg(style: Style, text: string)

  /** Inside quotes `q`, a backslash and `q` are escaped and a dollar is doubled. */
  function Escape(q: char, text: string): string {
    if text == "" then ""
    else EscapeChar(q, text[0]) + Escape(q, text[1..])
  }

  function EscapeChar(q: char, c: char): string {
    if c == '\\' || c == q then ['\\', c] else if c == '$' then "$$" else [c]
  }

  function Depth(depth: nat, c: char): nat
    requires c == ')' ==> depth > 0
  {
    if c == '(' then depth + 1 else if c == ')' then depth - 1 else depth
  }

  function PrintArg(arg: Arg): string {
    match arg.style
    case Bare => arg.text
    case Quoted(q) => [q] + Escape(q, arg.text) + [q]
  }

  function PrintArgs(args: seq<Arg>): string {
    if args == [] then "" else " " + PrintArg(args[0]) + PrintArgs(args[1..])
  }

  function Print(subject: string, args: seq<Arg>): string {
    subject + PrintArgs(args)
  }

  function Texts(args: seq<Arg>): seq<string> {
    if args == [] then [] else [args[0].text] + Texts(args[1..])
  }

  /** Every closing bracket closes one, and `depth` open ones are closed at the end. */
  predicate Balanced(text: string, depth: nat) {
    if text == "" then depth == 0
    else if text[0] == '(' then Balanced(text[1..], depth + 1)
    else if text[0] == ')' then depth > 0 && Balanced(text[1..], depth - 1)
    else Balanced(text[1..], depth)
  }

  predicate PlainChar(c: char) {
    c != ' ' && c != '\\' && c != '$' && !IsQuote(c)
  }

  /** A word that needs no quotes. */
  predicate IsWord(text: string) {
    && text != "" && !IsSpace(text[0]) && Balanced(text, 0) && AllInTable(text)
    && forall i :: 0 <= i < |text| ==> PlainChar(text[i])
  }

  /** An argument that its style can express. Backquotes cannot be escaped. */
  predicate Printable(arg: Arg) {
    match arg.style
    case Bare => IsWord(arg.text)
    case Quoted(q) => IsQuote(q) && (q == '`' ==> '`' !in arg.text) && AllInTable(arg.text)
  }

  // ---------------------------------------------------------------- round trip

  lemma {:induction false} RunConcat(env: Environment, s: State, v1: string, v2: string)
    ensures Run(env, s, v1 + v2) == (var p := Run(env, s, v1); if p.Going? then Run(env, p.state, v2) else p)
    decreases |v1|
  {
    if v1 == "" {
      assert v1 + v2 == v2;
    } else {
      assert (v1 + v2)[1..] == v1[1..] + v2;
      var p := Step(env, s, v1[0]);
      if p.Going? {
        RunConcat(env, p.state, v1[1..], v2);
      }
    }
  }

  /** Between parts: nothing is pending except plain text in the buffer. */
  predicate Calm(s: State) {
    !s.escaped && !s.expectingBrace && !s.inEnvVar
  }

  lemma {:induction false} RunOne(env: Environment, s: State, c: char)
    ensures Run(env, s, [c]) == Step(env, s, c)
  {
    assert [c][1..] == "";
  }

  lemma {:induction false} RunTwo(env: Environment, s: State, c: char, d: char)
    requires Step(env, s, c).Going?
    ensures Run(env, s, [c, d]) == Step(env, Step(env, s, c).state, d)
  {
    assert [c, d][1..] == [d];
    RunOne(env, Step(env, s, c).state, d);
  }

  lemma {:induction false} QuotedChar(env: Environment, s: State, c: char)
    requires Calm(s) && IsQuote(s.quote) && (s.quote == '`' ==> c != '`') && InTable(c)
    ensures Run(env, s, EscapeChar(s.quote, c))
         == if c == ')' && s.brackets == 0 then Stopped(s)
            else Going(s.(buf := s.buf + [c], brackets := Depth(s.brackets, c)))
  {
    if c == '\\' || c == s.quote {
      RunTwo(env, s, '\\', c);
    } else if c == '$' {
      RunTwo(env, s, '$', '$');
    } else {
      RunOne(env, s, c);
    }
  }

  /** Some brackets are open; otherwise the states are the same. */
  predicate LeavesOpen(s: State, expected: State) {
    s.brackets > 0 && s == expected.(brackets := s.brackets)
  }

  /** Inside quotes the escaped form of a text adds exactly that text to the buffer;
      it ends with an open bracket, or stops, exactly when the text is not balanced. */
  lemma {:induction false} QuotedText(env: Environment, s: State, text: string)
    requires Calm(s) && IsQuote(s.quote) && (s.quote == '`' ==> '`' !in text) && AllInTable(text)
    ensures var p := Run(env, s, Escape(s.quote, text));
            if Balanced(text, s.brackets) then p == Going(s.(buf := s.buf + text, brackets := 0))
            else p.Stopped? || (p.Going? && LeavesOpen(p.state, s.(buf := s.buf + text)))
    decreases |text|
  {
    if text == "" {
      assert s.buf + text == s.buf;
    } else {
      var c, q := text[0], s.quote;
      RunConcat(env, s, EscapeChar(q, c), Escape(q, text[1..]));
      QuotedChar(env, s, c);
      if c != ')' || s.brackets > 0 {
        var s' := s.(buf := s.buf + [c], brackets := Depth(s.brackets, c));
        QuotedText(env, s', text[1..]);
        assert s.buf + [c] + text[1..] == s.buf + text;
      }
    }
  }

  lemma {:induction false} BareText(env: Environment, s: State, text: string)
    requires Calm(s) && s.quote == NO_QUOTE && Balanced(text, s.brackets) && AllInTable(text)
    requires forall i :: 0 <= i < |text| ==> PlainChar(text[i])
    ensures Run(env, s, text) == Going(s.(buf := s.buf + text, brackets := 0))
    decreases |text|
  {
    if text == "" {
      assert s.buf + text == s.buf;
    } else {
      var c := text[0];
      var s' := s.(buf := s.buf + [c], brackets := Depth(s.brackets, c));
      assert Step(env, s, c) == Going(s');
      BareText(env, s', text[1..]);
      assert s.buf + [c] + text[1..] == s.buf + text;
    }
  }

  /** What has been read once the pending part is ended: `subject`, `args`, nothing else. */
  predicate Settled(s: State, subject: string, args: seq<string>) {
    && Calm(s) && s.quote == NO_QUOTE && s.brackets == 0 && s.missing == [] && subject != ""
    && Flush(s, false).subject == subject && Flush(s, false).args == args && Flush(s, false).buf == ""
  }

  lemma {:induction false} BareArgRead(env: Environment, s: State, subject: string, args: seq<string>, text: string)
    requires Settled(s, subject, args) && s.buf == "" && IsWord(text)
    ensures var p := Run(env, s, text); p.Going? && Settled(p.state, subject, args + [text])
  {
    BareText(env, s, text);
    assert "" + text == text;
    assert TrimLeft(text) == text;
  }

  lemma {:induction false} QuotedArgRead(env: Environment, s: State, subject: string, args: seq<string>, q: char, text: string)
    requires Settled(s, subject, args) && s.buf == "" && IsQuote(q)
    requires (q == '`' ==> '`' !in text) && AllInTable(text)
    ensures var p := Run(env, s, [q] + Escape(q, text) + [q]);
            if Balanced(text, 0) then p.Going? && Settled(p.state, subject, args + [text])
            else p.Stopped? || (p.Going? && LeavesOpen(p.state, s.(args := s.args + [text])))
  {
    var open := s.(quote := q);
    RunConcat(env, s, [q] + Escape(q, text), [q]);
    RunConcat(env, s, [q], Escape(q, text));
    RunOne(env, s, q);
    assert Step(env, s, q) == Going(open);
    QuotedText(env, open, text);
    var p := Run(env, open, Escape(q, text));
    if p.Going? {
      RunOne(env, p.state, q);
      assert "" + text == text;
    }
  }

  /** Reading one printed argument after a settled state. */
  lemma {:induction false} ArgRead(env: Environment, s: State, subject: string, args: seq<string>, arg: Arg)
    requires Settled(s, subject, args) && Printable(arg)
    ensures var p := Run(env, s, " " + PrintArg(arg));
            if Balanced(arg.text, 0) then p.Going? && Settled(p.state, subject, args + [arg.text])
            else p.Stopped? || (p.Going? && LeavesOpen(p.state, Flush(s, false).(args := args + [arg.text])))
  {
    var f := Flush(s, false);
    RunConcat(env, s, " ", PrintArg(arg));
    RunOne(env, s, ' ');
    assert Settled(f, subject, args);
    match arg.style
    case Bare => BareArgRead(env, f, subject, args, arg.text);
    case Quoted(q) => QuotedArgRead(env, f, subject, args, q, arg.text);
  }

  lemma {:induction false} TextsNext(args: seq<string>, more: seq<Arg>)
    requires more != []
    ensures args + [more[0].text] + Texts(more[1..]) == args + Texts(more)
  {}

  lemma {:induction false} ArgsRead(env: Environment, s: State, subject: string, args: seq<string>, more: seq<Arg>)
    requires Settled(s, subject, args)
    requires forall i :: 0 <= i < |more| ==> Printable(more[i]) && Balanced(more[i].text, 0)
    ensures var p := Run(env, s, PrintArgs(more)); p.Going? && Settled(p.state, subject, args + Texts(more))
    decreases |more|
  {
    if more == [] {
      assert args + [] == args;
    } else {
      var first := " " + PrintArg(more[0]);
      RunConcat(env, s, first, PrintArgs(more[1..]));
      ArgRead(env, s, subject, args, more[0]);
      var next := Run(env, s, first).state;
      ArgsRead(env, next, subject, args + [more[0].text], more[1..]);
      TextsNext(args, more);
    }
  }

  lemma {:induction false} SubjectRead(env: Environment, subject: string)
    requires IsWord(subject)
    ensures Run(env, START, subject).Going? && Settled(Run(env, START, subject).state, subject, [])
  {
    BareText(env, START, subject);
    assert "" + subject == subject;
    assert TrimLeft(subject) == subject;
  }

  lemma {:induction false} PrintRead(env: Environment, subject: string, args: seq<Arg>)
    requires IsWord(subject)
    requires forall i :: 0 <= i < |args| ==> Printable(args[i]) && Balanced(args[i].text, 0)
    ensures var p := Run(env, START, Print(subject, args)); p.Going? && Settled(p.state, subject, Texts(args))
  {
    SubjectRead(env, subject);
    RunConcat(env, START, subject, PrintArgs(args));
    ArgsRead(env, Run(env, START, subject).state, subject, [], args);
    assert [] + Texts(args) == Texts(args);
  }

  /** Printing and parsing back: for every environment, every word as subject and every
      list of arguments, each bare, single-, double- or back-quoted. */
  lemma {:induction false} RoundTrip(env: Environment, subject: string, args: seq<Arg>)
    requires IsWord(subject)
    requires forall i :: 0 <= i < |args| ==> Printable(args[i]) && Balanced(args[i].text, 0)
    ensures ParseText(env, Print(subject, args)) == Parsed(subject, Texts(args), [])
  {
    PrintRead(env, subject, args);
  }

  /** A last argument with unbalanced brackets is rejected. */
  lemma {:induction false} UnbalancedLastIsRejected(env: Environment, subject: string, args: seq<Arg>, last: Arg)
    requires IsWord(subject) && Printable(last)
    requires forall i :: 0 <= i < |args| ==> Printable(args[i]) && Balanced(args[i].text, 0)
    requires !Balanced(last.text, 0)
    ensures var r := ParseText(env, Print(subject, args) + " " + PrintArg(last)); r.Parsed? && r.errors != []
  {
    var v, w := Print(subject, args), " " + PrintArg(last);
    PrintRead(env, subject, args);
    RunConcat(env, START, v, w);
    assert v + " " + PrintArg(last) == v + w;
    ArgRead(env, Run(env, START, v).state, subject, Texts(args), last);
    FinishMeans(Run(env, START, v + w), subject, Texts(args) + [last.text]);
  }

  lemma {:induction false} FinishMeans(p: Progress, subject: string, args: seq<string>)
    ensures p.Going? && Settled(p.state, subject, args) ==> Finish(p) == Parsed(subject, args, [])
    ensures p.Stopped? || (p.Going? && p.state.brackets > 0) ==> Finish(p).Parsed? && Finish(p).errors != []
  {}
}

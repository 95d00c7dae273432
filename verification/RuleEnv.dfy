/** Environment variables and escapes in rule arguments: what an argument in quotes says when
    it is written with them. */
module RuleEnv {
  import opened Common
  import opened RuleParser

  /** The parts of a written argument: plain text, a variable, a control character, a
      character that a backslash protects, and a backslash that protects nothing. */
  datatype Piece = Plain(text: string) | Var(name: string) | Control(c: char) | Protected(c: char) | Backslash(c: char)

  predicate VarName(name: string) {
    forall i :: 0 <= i < |name| ==>
      InTable(name[i]) && !IsQuote(name[i]) && name[i] !in {'\\', '$', '{', '}', '(', ')', ' '}
  }

  predicate GoodPiece(q: char, p: Piece) {
    match p
    case Plain(text) => (q == '`' ==> '`' !in text) && AllInTable(text)
    case Var(name) => VarName(name)
    case Control(c) => c in {'\n', '\t', '\r'}
    case Protected(c) => c in {'\'', '\"', '\\', ' '}
    case Backslash(c) => c !in {'n', 't', 'r', '\'', '\"', '\\', ' '}
  }

  function WritePiece(q: char, p: Piece): string {
    match p
    case Plain(text) => Escape(q, text)
    case Var(name) => "${" + (name + "}")
    case Control(c) => if c == '\n' then "\\n" else if c == '\t' then "\\t" else "\\r"
    case Protected(c) => ['\\', c]
    case Backslash(c) => ['\\', c]
  }

  /** What a piece stands for; a variable that is not set stands for nothing. */
  function Meaning(env: Environment, p: Piece): string {
    match p
    case Plain(text) => text
    case Var(name) => if name in env then env[name] else ""
    case Control(c) => [c]
    case Protected(c) => [c]
    case Backslash(c) => ['\\', c]
  }

  function Unset(env: Environment, p: Piece): seq<string> {
    if p.Var? && p.name !in env then [p.name] else []
  }

  function PlainText(p: Piece): string {
    if p.Plain? then p.text else ""
  }

  function WriteAll(q: char, ps: seq<Piece>): string {
    if ps == [] then "" else WritePiece(q, ps[0]) + WriteAll(q, ps[1..])
  }

  function MeaningOf(env: Environment, ps: seq<Piece>): string {
    if ps == [] then "" else Meaning(env, ps[0]) + MeaningOf(env, ps[1..])
  }

  function UnsetIn(env: Environment, ps: seq<Piece>): seq<string> {
    if ps == [] then [] else Unset(env, ps[0]) + UnsetIn(env, ps[1..])
  }

  /** Only the brackets of plain text count. */
  function PlainTexts(ps: seq<Piece>): string {
    if ps == [] then "" else PlainText(ps[0]) + PlainTexts(ps[1..])
  }

  lemma {:induction false} QuotesExactly(c: char)
    ensures IsQuote(c) <==> c in {'\"', '\'', '`'}
  {}

  // ---------------------------------------------------------------- one piece

  /** `s'` is `s` with something read into its buffer. */
  predicate Reads(s: State, s': State, text: string, unset: seq<string>) {
    s' == s.(buf := s.buf + text, missing := s.missing + unset, brackets := s'.brackets, envVar := s'.envVar)
  }

  lemma {:induction false} TextRead(env: Environment, s: State, text: string, rest: string) returns (s': State)
    requires Calm(s) && IsQuote(s.quote) && (s.quote == '`' ==> '`' !in text) && AllInTable(text)
    requires Balanced(text + rest, s.brackets)
    ensures Run(env, s, Escape(s.quote, text)) == Going(s')
    ensures Reads(s, s', text, []) && Balanced(rest, s'.brackets)
    decreases |text|
  {
    if text == "" {
      assert text + rest == rest && s.buf + text == s.buf && s.missing + [] == s.missing;
      s' := s;
    } else {
      var c, q := text[0], s.quote;
      assert (text + rest)[1..] == text[1..] + rest;
      RunConcat(env, s, EscapeChar(q, c), Escape(q, text[1..]));
      QuotedChar(env, s, c);
      s' := TextRead(env, s.(buf := s.buf + [c], brackets := Depth(s.brackets, c)), text[1..], rest);
      assert s.buf + [c] + text[1..] == s.buf + text;
    }
  }

  lemma {:induction false} NameRead(env: Environment, s: State, name: string)
    requires VarName(name) && s.inEnvVar && !s.escaped && !s.expectingBrace
    ensures Run(env, s, name) == Going(s.(envVar := s.envVar + name))
    decreases |name|
  {
    if name == "" {
      assert s.envVar + name == s.envVar;
    } else {
      NameRead(env, s.(envVar := s.envVar + [name[0]]), name[1..]);
      assert (s.envVar + [name[0]]) + name[1..] == s.envVar + name;
    }
  }

  lemma {:induction false} OpenVariable(env: Environment, s: State, name: string)
    requires Calm(s) && VarName(name)
    ensures Run(env, s, "${" + name) == Going(s.(inEnvVar := true, envVar := name))
  {
    RunConcat(env, s, "${", name);
    RunTwo(env, s, '$', '{');
    NameRead(env, s.(inEnvVar := true, envVar := ""), name);
    assert "" + name == name;
  }

  lemma {:induction false} VariableRead(env: Environment, s: State, name: string) returns (s': State)
    requires Calm(s) && VarName(name)
    ensures Run(env, s, "${" + (name + "}")) == Going(s')
    ensures Reads(s, s', if name in env then env[name] else "", if name in env then [] else [name])
    ensures s'.brackets == s.brackets
  {
    var open := s.(inEnvVar := true, envVar := name);
    OpenVariable(env, s, name);
    AppendAssociates("${", name, "}");
    RunConcat(env, s, "${" + name, "}");
    RunOne(env, open, '}');
    s' := if name in env then s.(buf := s.buf + env[name], envVar := name)
          else s.(missing := s.missing + [name], envVar := name);
    assert s.buf + "" == s.buf && s.missing + [] == s.missing;
  }

  lemma {:induction false} EscapeRead(env: Environment, s: State, c: char)
    requires Calm(s)
    ensures Run(env, s, ['\\', c]) == Going(s.(buf := s.buf +
              (if c == 'n' then "\n" else if c == 't' then "\t" else if c == 'r' then "\r"
               else if c in {'\'', '\"', '\\', ' '} then [c] else ['\\', c])))
  {
    RunTwo(env, s, '\\', c);
  }

  lemma {:induction false} PieceRead(env: Environment, s: State, p: Piece, rest: string) returns (s': State)
    requires Calm(s) && IsQuote(s.quote) && GoodPiece(s.quote, p) && Balanced(PlainText(p) + rest, s.brackets)
    ensures Run(env, s, WritePiece(s.quote, p)) == Going(s')
    ensures Reads(s, s', Meaning(env, p), Unset(env, p)) && Balanced(rest, s'.brackets)
  {
    assert "" + rest == rest && s.missing + [] == s.missing;
    match p
    case Plain(text) => s' := TextRead(env, s, text, rest);
    case Var(name) => s' := VariableRead(env, s, name);
    case Control(c) =>
      EscapeRead(env, s, if c == '\n' then 'n' else if c == '\t' then 't' else 'r');
      s' := s.(buf := s.buf + [c]);
    case Protected(c) =>
      EscapeRead(env, s, c);
      s' := s.(buf := s.buf + [c]);
    case Backslash(c) =>
      EscapeRead(env, s, c);
      s' := s.(buf := s.buf + ['\\', c]);
  }

  lemma {:induction false} PiecesRead(env: Environment, s: State, ps: seq<Piece>) returns (s': State)
    requires Calm(s) && IsQuote(s.quote) && (forall i :: 0 <= i < |ps| ==> GoodPiece(s.quote, ps[i]))
    requires Balanced(PlainTexts(ps), s.brackets)
    ensures Run(env, s, WriteAll(s.quote, ps)) == Going(s')
    ensures Reads(s, s', MeaningOf(env, ps), UnsetIn(env, ps)) && s'.brackets == 0
    decreases |ps|
  {
    if ps == [] {
      s' := s;
      assert s.buf + "" == s.buf && s.missing + [] == s.missing;
    } else {
      RunConcat(env, s, WritePiece(s.quote, ps[0]), WriteAll(s.quote, ps[1..]));
      var s1 := PieceRead(env, s, ps[0], PlainTexts(ps[1..]));
      s' := PiecesRead(env, s1, ps[1..]);
      AppendAssociates(s.buf, Meaning(env, ps[0]), MeaningOf(env, ps[1..]));
      AppendAssociates(s.missing, Unset(env, ps[0]), UnsetIn(env, ps[1..]));
    }
  }

  // ---------------------------------------------------------------- argument lists

  datatype RichArg = RichArg(q: char, pieces: seq<Piece>)

  predicate GoodRichArg(a: RichArg) {
    && IsQuote(a.q) && Balanced(PlainTexts(a.pieces), 0)
    && forall i :: 0 <= i < |a.pieces| ==> GoodPiece(a.q, a.pieces[i])
  }

  function WriteArg(a: RichArg): string {
    " " + ([a.q] + (WriteAll(a.q, a.pieces) + [a.q]))
  }

  function WriteArgs(args: seq<RichArg>): string {
    if args == [] then "" else WriteArg(args[0]) + WriteArgs(args[1..])
  }

  function Meanings(env: Environment, args: seq<RichArg>): seq<string> {
    if args == [] then [] else [MeaningOf(env, args[0].pieces)] + Meanings(env, args[1..])
  }

  function AllUnset(env: Environment, args: seq<RichArg>): seq<string> {
    if args == [] then [] else UnsetIn(env, args[0].pieces) + AllUnset(env, args[1..])
  }

  /** What has been read once the pending part is ended. */
  predicate HasRead(s: State, subject: string, args: seq<string>, unset: seq<string>) {
    && Calm(s) && s.quote == NO_QUOTE && s.brackets == 0 && s.missing == unset && subject != ""
    && Flush(s, false).subject == subject && Flush(s, false).args == args && Flush(s, false).buf == ""
  }

  lemma {:induction false} OpenArg(env: Environment, s: State, subject: string, args: seq<string>, unset: seq<string>, q: char, v: string)
    requires HasRead(s, subject, args, unset) && IsQuote(q)
    ensures Run(env, s, " " + ([q] + v)) == Run(env, Flush(s, false).(quote := q), v)
  {
    var f := Flush(s, false);
    RunConcat(env, s, " ", [q] + v);
    RunOne(env, s, ' ');
    RunConcat(env, f, [q], v);
    RunOne(env, f, q);
    assert Step(env, f, q) == Going(f.(quote := q));
  }

  lemma {:induction false} CloseArg(env: Environment, s: State, q: char, text: string)
    requires Calm(s) && s.quote == q && IsQuote(q) && s.subject != "" && s.buf == text
    ensures Run(env, s, [q]) == Going(s.(quote := NO_QUOTE, args := s.args + [text], buf := ""))
  {
    RunOne(env, s, q);
  }

  lemma {:induction false} RichArgRead(env: Environment, s: State, subject: string, args: seq<string>, unset: seq<string>, a: RichArg) returns (s': State)
    requires HasRead(s, subject, args, unset) && GoodRichArg(a)
    ensures Run(env, s, WriteArg(a)) == Going(s')
    ensures HasRead(s', subject, args + [MeaningOf(env, a.pieces)], unset + UnsetIn(env, a.pieces))
  {
    var open := Flush(s, false).(quote := a.q);
    OpenArg(env, s, subject, args, unset, a.q, WriteAll(a.q, a.pieces) + [a.q]);
    RunConcat(env, open, WriteAll(a.q, a.pieces), [a.q]);
    var full := PiecesRead(env, open, a.pieces);
    assert "" + MeaningOf(env, a.pieces) == MeaningOf(env, a.pieces);
    CloseArg(env, full, a.q, MeaningOf(env, a.pieces));
    s' := full.(quote := NO_QUOTE, args := full.args + [MeaningOf(env, a.pieces)], buf := "");
  }

  lemma {:induction false} RichArgsRead(env: Environment, s: State, subject: string, args: seq<string>, unset: seq<string>, more: seq<RichArg>) returns (s': State)
    requires HasRead(s, subject, args, unset) && forall i :: 0 <= i < |more| ==> GoodRichArg(more[i])
    ensures Run(env, s, WriteArgs(more)) == Going(s')
    ensures HasRead(s', subject, args + Meanings(env, more), unset + AllUnset(env, more))
    decreases |more|
  {
    if more == [] {
      s' := s;
      assert args + [] == args && unset + [] == unset;
    } else {
      RunConcat(env, s, WriteArg(more[0]), WriteArgs(more[1..]));
      var value, names := MeaningOf(env, more[0].pieces), UnsetIn(env, more[0].pieces);
      var s1 := RichArgRead(env, s, subject, args, unset, more[0]);
      s' := RichArgsRead(env, s1, subject, args + [value], unset + names, more[1..]);
      AppendAssociates(args, [value], Meanings(env, more[1..]));
      AppendAssociates(unset, names, AllUnset(env, more[1..]));
    }
  }

  lemma {:induction false} HasReadFinishes(s: State, subject: string, args: seq<string>, unset: seq<string>)
    requires HasRead(s, subject, args, unset)
    ensures Finish(Going(s)) == Parsed(subject, args, if unset == [] then [] else [EnvVarNotFound(unset)])
  {}

  /** Arguments in quotes, written with variables and escapes, are read as what they stand
      for: set variables are replaced by their values wherever they stand, and the ones that
      are not set are reported, all of them in one error and in order. */
  lemma {:induction false} RichRoundTrip(env: Environment, subject: string, args: seq<RichArg>)
    requires IsWord(subject) && forall i :: 0 <= i < |args| ==> GoodRichArg(args[i])
    ensures var unset := AllUnset(env, args);
            ParseText(env, subject + WriteArgs(args))
            == Parsed(subject, Meanings(env, args), if unset == [] then [] else [EnvVarNotFound(unset)])
  {
    var s := AllRead(env, subject, args);
    HasReadFinishes(s, subject, Meanings(env, args), AllUnset(env, args));
  }

  lemma {:induction false} AllRead(env: Environment, subject: string, args: seq<RichArg>) returns (s: State)
    requires IsWord(subject) && forall i :: 0 <= i < |args| ==> GoodRichArg(args[i])
    ensures Run(env, START, subject + WriteArgs(args)) == Going(s)
    ensures HasRead(s, subject, Meanings(env, args), AllUnset(env, args))
  {
    assert [] + Meanings(env, args) == Meanings(env, args);
    assert [] + AllUnset(env, args) == AllUnset(env, args);
    SubjectRead(env, subject);
    RunConcat(env, START, subject, WriteArgs(args));
    s := RichArgsRead(env, Run(env, START, subject).state, subject, [], [], args);
  }

  // ---------------------------------------------------------------- outside quotes

  lemma {:induction false} AfterSubject(env: Environment, subject: string, v: string) returns (s: State)
    requires IsWord(subject)
    ensures ParseText(env, subject + (" " + v)) == Finish(Run(env, s, v))
    ensures s == START.(subject := subject)
  {
    SubjectRead(env, subject);
    RunConcat(env, START, subject, " " + v);
    var s0 := Run(env, START, subject).state;
    BareText(env, START, subject);
    RunConcat(env, s0, " ", v);
    RunOne(env, s0, ' ');
    s := Flush(s0, false);
    assert "" + subject == subject;
  }

  /** A variable as an argument of its own: its value, without leading spaces, and no argument
      at all if that leaves nothing; an error if it is not set. */
  lemma {:induction false} BareVariable(env: Environment, subject: string, name: string)
    requires IsWord(subject) && VarName(name)
    ensures var r := ParseText(env, subject + (" " + ("${" + (name + "}"))));
            if name in env then r == Parsed(subject, OrNothing(TrimLeft(env[name])), [])
            else r == Parsed(subject, [], [EnvVarNotFound([name])])
  {
    var s := AfterSubject(env, subject, "${" + (name + "}"));
    var s' := VariableRead(env, s, name);
    assert s'.buf == if name in env then env[name] else "";
    assert [] + OrNothing(TrimLeft(s'.buf)) == OrNothing(TrimLeft(s'.buf));
    assert [] + [TrimLeft(s'.buf)] == [TrimLeft(s'.buf)] && [] + [name] == [name];
  }

  /** A variable that is not closed is an error. */
  lemma {:induction false} UnclosedVariable(env: Environment, subject: string, name: string)
    requires IsWord(subject) && VarName(name)
    ensures ParseText(env, subject + (" " + ("${" + name))) == Parsed(subject, [], [UnterminatedEnvVar])
  {
    var s := AfterSubject(env, subject, "${" + name);
    OpenVariable(env, s, name);
  }

  /** A dollar before anything but a brace or another dollar is an ordinary character, at the
      end of the text too. */
  lemma {:induction false} LoneDollar(env: Environment, subject: string, text: string)
    requires IsWord(subject) && AllInTable(text) && Balanced(text, 0)
    requires (forall i :: 0 <= i < |text| ==> PlainChar(text[i])) && (text != "" ==> text[0] != '{')
    ensures ParseText(env, subject + (" " + ("$" + text))) == Parsed(subject, ["$" + text], [])
  {
    var s := AfterSubject(env, subject, "$" + text);
    RunConcat(env, s, "$", text);
    RunOne(env, s, '$');
    var d := s.(expectingBrace := true);
    assert TrimLeft("$" + text) == "$" + text && "" + "$" == "$";
    assert [] + ["$" + text] == ["$" + text];
    if text == "" {
      assert "$" + text == "$";
    } else {
      DollarThen(env, d, text);
    }
  }

  lemma {:induction false} DollarThen(env: Environment, d: State, text: string)
    requires d.expectingBrace && !d.escaped && !d.inEnvVar && d.quote == NO_QUOTE && d.brackets == 0
    requires text != "" && AllInTable(text) && Balanced(text, 0) && text[0] != '{'
    requires forall i :: 0 <= i < |text| ==> PlainChar(text[i])
    ensures Run(env, d, text) == Going(d.(expectingBrace := false, buf := d.buf + "$" + text))
  {
    var s := d.(expectingBrace := false, buf := d.buf + "$");
    assert Step(env, d, text[0]) == Step(env, s, text[0]);
    BareText(env, s, text);
  }
}

/** Conditions written down as text, and the theorem that parsing reads them back:
    a conjunction of lines, each a disjunction of possibly negated checks. */
module RuleText {
  import opened Common
  import opened RuleParser
  import opened RuleCondition
  import opened RuleOn

  datatype Term = Term(negate: bool, subject: string, args: seq<Arg>)

  function Head(t: Term): string {
    if t.negate then "!" + t.subject else t.subject
  }

  function PrintTerm(t: Term): string {
    Print(Head(t), t.args)
  }

  function AtomOf(t: Term): Atom {
    Atom(t.negate, t.subject, Texts(t.args))
  }

  predicate NameChar(c: char) {
    PlainChar(c) && !IsSpace(c) && c != '|' && !IsAnd(c)
  }

  /** A word that also means nothing to the splitters. */
  predicate IsName(text: string) {
    IsWord(text) && forall i :: 0 <= i < |text| ==> NameChar(text[i])
  }

  predicate NoAnd(s: string) {
    forall i :: 0 <= i < |s| ==> !IsAnd(s[i])
  }

  /** Arguments may hold anything their quotes can express. */
  predicate GoodArg(a: Arg) {
    Printable(a) && Balanced(a.text, 0) && (a.style.Bare? ==> IsName(a.text))
  }

  predicate GoodArgs(args: seq<Arg>) {
    forall i :: 0 <= i < |args| ==> GoodArg(args[i])
  }

  predicate NoAndArgs(args: seq<Arg>) {
    forall i :: 0 <= i < |args| ==> NoAnd(args[i].text)
  }

  predicate GoodTerm(t: Term) {
    IsName(t.subject) && t.subject[0] != '!' && GoodArgs(t.args)
  }

  /** The check exists and accepts the arguments. */
  predicate Known(table: Table, t: Term) {
    t.subject in table && table[t.subject].accepts(Texts(t.args))
  }

  // ---------------------------------------------------------------- one term

  lemma {:induction false} HeadIsName(t: Term)
    requires GoodTerm(t)
    ensures IsName(Head(t))
  {
    if t.negate {
      var h := "!" + t.subject;
      assert h[1..] == t.subject;
      assert Balanced(h, 0);
      forall i | 0 <= i < |h|
        ensures NameChar(h[i]) && InTable(h[i])
      {
        if i > 0 {
          assert h[i] == t.subject[i - 1];
        }
      }
    }
  }

  lemma {:induction false} TermIsRead(env: Environment, table: Table, t: Term)
    requires GoodTerm(t) && Known(table, t)
    ensures ParseAtom(env, table, PrintTerm(t)) == Ok(AtomOf(t), table[t.subject].isResponse)
  {
    HeadIsName(t);
    RoundTrip(env, Head(t), t.args);
    if t.negate {
      assert Head(t)[1..] == t.subject;
    }
  }

  /** A check that is not known, or that refuses its arguments, is an error. */
  lemma {:induction false} UnknownIsError(env: Environment, table: Table, t: Term)
    requires GoodTerm(t) && (t.subject !in table || !table[t.subject].accepts(Texts(t.args)))
    ensures ParseAtom(env, table, PrintTerm(t)).Err?
  {
    HeadIsName(t);
    RoundTrip(env, Head(t), t.args);
    if t.negate {
      assert Head(t)[1..] == t.subject;
    }
  }

  /** `s` leaves the pipe splitter where it found it and is not cut. */
  predicate Inert(l: Lex, s: string, l': Lex) {
    NoCuts(l, s) && LexRun(l, s) == l'
  }

  lemma {:induction false} InertConcat(l1: Lex, a: string, l2: Lex, b: string, l3: Lex)
    requires Inert(l1, a, l2) && Inert(l2, b, l3)
    ensures Inert(l1, a + b, l3)
  {
    NoCutsConcat(l1, a, b);
  }

  lemma {:induction false} InertChar(l: Lex, c: char)
    requires !Cuts(l, c)
    ensures Inert(l, [c], Next(l, c))
  {
    assert [c][1..] == "";
  }

  lemma {:induction false} NameIsInert(brackets: nat, text: string)
    requires Balanced(text, brackets) && forall i :: 0 <= i < |text| ==> NameChar(text[i])
    ensures Inert(Lex(false, NO_QUOTE, brackets), text, FRESH)
    decreases |text|
  {
    if text != "" {
      NameIsInert(Depth(brackets, text[0]), text[1..]);
    }
  }

  lemma {:induction false} QuotedIsInert(q: char, brackets: nat, text: string)
    requires IsQuote(q) && (q == '`' ==> '`' !in text) && Balanced(text, brackets)
    ensures Inert(Lex(false, q, brackets), Escape(q, text), Lex(false, q, 0))
    decreases |text|
  {
    if text != "" {
      var c, l := text[0], Lex(false, q, brackets);
      var l' := Lex(false, q, Depth(brackets, c));
      QuotedIsInert(q, l'.brackets, text[1..]);
      if c == '\\' || c == q {
        InertChar(l, '\\');
        InertChar(l.(escaped := true), c);
        InertConcat(l, ['\\'], l.(escaped := true), [c], l');
        assert ['\\'] + [c] == EscapeChar(q, c);
      } else if c == '$' {
        InertChar(l, '$');
        InertConcat(l, "$", l, "$", l');
        assert "$" + "$" == EscapeChar(q, c);
      } else {
        InertChar(l, c);
      }
      InertConcat(l, EscapeChar(q, c), l', Escape(q, text[1..]), Lex(false, q, 0));
    }
  }

  lemma {:induction false} ArgIsInert(a: Arg)
    requires GoodArg(a)
    ensures Inert(FRESH, " " + PrintArg(a), FRESH)
  {
    InertChar(FRESH, ' ');
    match a.style
    case Bare =>
      NameIsInert(0, a.text);
      InertConcat(FRESH, " ", FRESH, a.text, FRESH);
    case Quoted(q) =>
      var l := Lex(false, q, 0);
      InertChar(FRESH, q);
      QuotedIsInert(q, 0, a.text);
      InertConcat(FRESH, [q], l, Escape(q, a.text), l);
      InertChar(l, q);
      InertConcat(FRESH, [q] + Escape(q, a.text), l, [q], FRESH);
      InertConcat(FRESH, " ", FRESH, PrintArg(a), FRESH);
  }

  lemma {:induction false} ArgsAreInert(args: seq<Arg>)
    requires GoodArgs(args)
    ensures Inert(FRESH, PrintArgs(args), FRESH)
  {
    if args != [] {
      ArgIsInert(args[0]);
      ArgsAreInert(args[1..]);
      InertConcat(FRESH, " " + PrintArg(args[0]), FRESH, PrintArgs(args[1..]), FRESH);
    }
  }

  lemma {:induction false} TermIsInert(t: Term)
    requires GoodTerm(t)
    ensures Inert(FRESH, PrintTerm(t), FRESH)
  {
    HeadIsName(t);
    NameIsInert(0, Head(t));
    ArgsAreInert(t.args);
    InertConcat(FRESH, Head(t), FRESH, PrintArgs(t.args), FRESH);
  }

  lemma {:induction false} NoAndConcat(a: string, b: string)
    requires NoAnd(a) && NoAnd(b)
    ensures NoAnd(a + b)
  {}

  lemma {:induction false} EscapeNoAnd(q: char, text: string)
    requires NoAnd(text) && !IsAnd(q)
    ensures NoAnd(Escape(q, text))
  {
    if text != "" {
      EscapeNoAnd(q, text[1..]);
      NoAndConcat(EscapeChar(q, text[0]), Escape(q, text[1..]));
    }
  }

  lemma {:induction false} ArgsNoAnd(args: seq<Arg>)
    requires GoodArgs(args) && NoAndArgs(args)
    ensures NoAnd(PrintArgs(args))
  {
    if args != [] {
      var a := args[0];
      if a.style.Quoted? {
        EscapeNoAnd(a.style.q, a.text);
      }
      ArgsNoAnd(args[1..]);
      NoAndConcat(" ", PrintArg(a));
      NoAndConcat(" " + PrintArg(a), PrintArgs(args[1..]));
    }
  }

  lemma {:induction false} TermNoAnd(t: Term)
    requires GoodTerm(t) && NoAndArgs(t.args)
    ensures NoAnd(PrintTerm(t))
  {
    HeadIsName(t);
    ArgsNoAnd(t.args);
    assert NoAnd(Head(t));
    NoAndConcat(Head(t), PrintArgs(t.args));
  }

  lemma {:induction false} ArgsEnd(args: seq<Arg>)
    requires GoodArgs(args) && args != []
    ensures PrintArgs(args) != "" && !IsSpace(PrintArgs(args)[|PrintArgs(args)| - 1])
  {
    if |args| > 1 {
      ArgsEnd(args[1..]);
    } else {
      assert PrintArgs(args) == " " + PrintArg(args[0]) + "";
    }
  }

  /** A text that is one trimmed alternative, whatever its quotes hold. */
  predicate Whole(s: string) {
    s != "" && Trimmed(s) && Inert(FRESH, s, FRESH)
  }

  lemma {:induction false} TermIsWhole(t: Term)
    requires GoodTerm(t)
    ensures Whole(PrintTerm(t))
  {
    HeadIsName(t);
    TermIsInert(t);
    if t.args == [] {
      assert PrintTerm(t) == Head(t);
    } else {
      ArgsEnd(t.args);
    }
  }

  // ---------------------------------------------------------------- alternatives

  const OR := " | "

  lemma {:induction false} CutAfter(l: Lex, a: string, b: string)
    requires Inert(l, a, FRESH)
    ensures Pieces(l, a + "|" + b) == [a] + Pieces(FRESH, b)
    decreases |a|
  {
    var s := a + "|" + b;
    if a == "" {
      assert s[1..] == b;
    } else {
      assert s[1..] == a[1..] + "|" + b;
      CutAfter(Next(l, a[0]), a[1..], b);
      assert [a[0]] + a[1..] == a;
    }
  }

  lemma {:induction false} SpaceBefore(s: string)
    ensures Pieces(FRESH, " " + s) == Prepend(" ", Pieces(FRESH, s))
  {
    var t := " " + s;
    assert t[0] == ' ' && t[1..] == s;
    assert !Cuts(FRESH, ' ') && Next(FRESH, ' ') == FRESH;
  }

  lemma {:induction false} SpaceTrimsLeft(s: string)
    ensures TrimSpace(" " + s) == TrimSpace(s)
  {
    assert (" " + s)[1..] == s;
  }

  lemma {:induction false} TrimRightSpace(s: string)
    requires s != "" && !IsSpace(s[|s| - 1])
    ensures TrimRight(s + " ") == s
  {
    assert (s + " ")[..|s|] == s;
  }

  lemma {:induction false} SpaceAround(s: string)
    requires s != "" && Trimmed(s)
    ensures TrimSpace(s + " ") == s && TrimSpace(s) == s
  {
    TrimSpaceTrims(s);
    TrimRightSpace(s);
    assert TrimLeft(s + " ") == s + " ";
  }

  lemma {:induction false} PrependSpaceTrims(ps: seq<string>)
    requires ps != []
    ensures TrimAll(Prepend(" ", ps)) == TrimAll(ps)
  {
    SpaceTrimsLeft(ps[0]);
    assert Prepend(" ", ps)[1..] == ps[1..];
  }

  predicate AllWhole(texts: seq<string>) {
    forall i :: 0 <= i < |texts| ==> Whole(texts[i])
  }

  lemma {:induction false} JoinedPieces(texts: seq<string>)
    requires texts != [] && AllWhole(texts)
    ensures var ps := Pieces(FRESH, Join(OR, texts));
            TrimAll(ps) == texts && ps[|ps| - 1] != ""
  {
    var t := texts[0];
    if |texts| == 1 {
      LonePiece(t);
      assert texts == [t];
    } else {
      var rest := Join(OR, texts[1..]);
      JoinedPieces(texts[1..]);
      PieceThenRest(t, rest);
      assert t + OR + rest == (t + " ") + "|" + (" " + rest);
      assert texts == [t] + texts[1..];
    }
  }

  lemma {:induction false} LonePiece(t: string)
    requires Whole(t)
    ensures Pieces(FRESH, t) == [t] && TrimAll([t]) == [t] && t != ""
  {
    SpaceAround(t);
    NoCutsIsOnePiece(FRESH, t);
    assert [t][1..] == [];
  }

  lemma {:induction false} PieceThenRest(t: string, rest: string)
    requires Whole(t)
    ensures var ps, rs := Pieces(FRESH, (t + " ") + "|" + (" " + rest)), Pieces(FRESH, rest);
            TrimAll(ps) == [t] + TrimAll(rs) && (rs[|rs| - 1] != "" ==> ps[|ps| - 1] != "")
  {
    var rs := Pieces(FRESH, rest);
    SpaceAround(t);
    InertChar(FRESH, ' ');
    InertConcat(FRESH, t, FRESH, " ", FRESH);
    CutAfter(FRESH, t + " ", " " + rest);
    SpaceBefore(rest);
    PrependSpaceTrims(rs);
    var ps := [t + " "] + Prepend(" ", rs);
    assert ps[1..] == Prepend(" ", rs);
  }

  lemma {:induction false} JoinedAlternatives(texts: seq<string>)
    requires texts != [] && AllWhole(texts)
    ensures Alternatives(Join(OR, texts)) == texts
  {
    JoinedPieces(texts);
  }

  lemma {:induction false} JoinedIsLine(texts: seq<string>)
    requires texts != [] && AllWhole(texts) && forall i :: 0 <= i < |texts| ==> NoAnd(texts[i])
    ensures var s := Join(OR, texts); s != "" && Trimmed(s) && NoAnd(s)
  {
    if |texts| > 1 {
      JoinedIsLine(texts[1..]);
      NoAndConcat(texts[0], OR);
      NoAndConcat(texts[0] + OR, Join(OR, texts[1..]));
    }
  }

  // ---------------------------------------------------------------- lines

  const AND := "\n"

  lemma {:induction false} AsciiTrimIsIdentity(s: string)
    requires s != "" && Trimmed(s)
    ensures AsciiTrim(s) == s
  {
    assert !IsAsciiSpace(s[0]) && !IsAsciiSpace(s[|s| - 1]);
  }

  predicate IsLine(s: string) {
    s != "" && Trimmed(s) && NoAnd(s)
  }

  predicate AreLines(lines: seq<string>) {
    forall i :: 0 <= i < |lines| ==> IsLine(lines[i])
  }

  lemma {:induction false} FirstCut(x: string, c: char, rest: string)
    requires NoAnd(x) && IsAnd(c)
    ensures LinesOf(x + ([c] + rest)) == OrNothing(AsciiTrim(x)) + LinesOf(rest)
  {
    var s := x + ([c] + rest);
    assert s[|x|] == c && forall i :: 0 <= i < |x| ==> s[i] == x[i];
    assert IndexAnd(s) == |x|;
    assert s[..|x|] == x && s[|x| + 1..] == rest;
  }

  lemma {:induction false} LoneLine(line: string)
    requires IsLine(line)
    ensures LinesOf(line) == [line] && OrNothing(AsciiTrim(line)) == [line]
  {
    TrimSpaceTrims(line);
    AsciiTrimIsIdentity(line);
  }

  lemma {:induction false} LineThenRest(line: string, rest: string)
    requires IsLine(line)
    ensures LinesOf(line + AND + rest) == [line] + LinesOf(rest)
  {
    LoneLine(line);
    FirstCut(line, '\n', rest);
    AppendAssociates(line, AND, rest);
  }

  lemma {:induction false} JoinedLines(lines: seq<string>)
    requires AreLines(lines)
    ensures LinesOf(Join(AND, lines)) == lines
  {
    if |lines| == 1 {
      LoneLine(lines[0]);
    } else if lines != [] {
      JoinedLines(lines[1..]);
      LineThenLines(lines[0], Join(AND, lines[1..]), lines[1..], lines);
    }
  }

  lemma {:induction false} LineThenLines(line: string, rest: string, others: seq<string>, lines: seq<string>)
    requires IsLine(line) && LinesOf(rest) == others && lines == [line] + others
    ensures LinesOf(line + AND + rest) == lines
  {
    LineThenRest(line, rest);
  }

  // ---------------------------------------------------------------- conditions

  predicate GoodClause(table: Table, terms: seq<Term>) {
    terms != [] && forall i :: 0 <= i < |terms| ==> GoodTerm(terms[i]) && Known(table, terms[i])
  }

  predicate NoAndClause(terms: seq<Term>) {
    forall i :: 0 <= i < |terms| ==> NoAndArgs(terms[i].args)
  }

  function TermTexts(terms: seq<Term>): seq<string> {
    seq(|terms|, i requires 0 <= i < |terms| => PrintTerm(terms[i]))
  }

  function PrintClause(terms: seq<Term>): string {
    Join(OR, TermTexts(terms))
  }

  function ClauseTexts(clauses: seq<seq<Term>>): seq<string> {
    seq(|clauses|, i requires 0 <= i < |clauses| => PrintClause(clauses[i]))
  }

  function PrintCondition(clauses: seq<seq<Term>>): string {
    Join(AND, ClauseTexts(clauses))
  }

  function AtomsOf(terms: seq<Term>): seq<Atom> {
    seq(|terms|, i requires 0 <= i < |terms| => AtomOf(terms[i]))
  }

  function CheckerOf(terms: seq<Term>): Checker {
    if |terms| == 1 then Single(AtomOf(terms[0])) else AnyOf(AtomsOf(terms))
  }

  predicate LooksAtResponse(table: Table, terms: seq<Term>) {
    exists i :: 0 <= i < |terms| && terms[i].subject in table && table[terms[i].subject].isResponse
  }

  /** If each outcome is the corresponding value, all of them are all of the values. */
  lemma {:induction false} AllOk<T>(os: seq<Outcome<T>>, values: seq<T>)
    requires |os| == |values| && forall i :: 0 <= i < |os| ==> os[i].Ok? && os[i].value == values[i]
    ensures All(os) == Ok(values, exists i :: 0 <= i < |os| && os[i].isResponse)
  {
    if os != [] {
      var n := |os| - 1;
      AllOk(os[..n], values[..n]);
      assert values[..n] + [values[n]] == values;
      assert (exists i :: 0 <= i < |os| && os[i].isResponse) <==>
             os[n].isResponse || exists i :: 0 <= i < n && os[..n][i].isResponse;
    }
  }

  lemma {:induction false} ClauseIsLine(table: Table, terms: seq<Term>)
    requires GoodClause(table, terms) && NoAndClause(terms)
    ensures IsLine(PrintClause(terms))
  {
    forall i | 0 <= i < |terms|
      ensures Whole(TermTexts(terms)[i]) && NoAnd(TermTexts(terms)[i])
    {
      TermIsWhole(terms[i]);
      TermNoAnd(terms[i]);
    }
    JoinedIsLine(TermTexts(terms));
  }

  /** A line comes back, whatever its arguments hold - if it is read as one line. */
  lemma {:induction false} ClauseIsRead(env: Environment, table: Table, terms: seq<Term>)
    requires GoodClause(table, terms)
    ensures ParseLine(env, table, PrintClause(terms)) == Ok(CheckerOf(terms), LooksAtResponse(table, terms))
  {
    var texts := TermTexts(terms);
    forall i | 0 <= i < |terms|
      ensures Whole(texts[i])
      ensures ParseAtom(env, table, texts[i]) == Ok(AtomOf(terms[i]), table[terms[i].subject].isResponse)
    {
      TermIsWhole(terms[i]);
      TermIsRead(env, table, terms[i]);
    }
    JoinedAlternatives(texts);
    TextsAreRead(env, table, terms, texts, PrintClause(terms));
  }

  lemma {:induction false} TextsAreRead(env: Environment, table: Table, terms: seq<Term>, texts: seq<string>, line: string)
    requires GoodClause(table, terms) && |texts| == |terms| && Alternatives(line) == texts && (|texts| == 1 ==> line == texts[0])
    requires forall i :: 0 <= i < |terms| ==>
               ParseAtom(env, table, texts[i]) == Ok(AtomOf(terms[i]), table[terms[i].subject].isResponse)
    ensures ParseLine(env, table, line) == Ok(CheckerOf(terms), LooksAtResponse(table, terms))
  {
    var os := ParseAtoms(env, table, texts);
    AllOk(os, AtomsOf(terms));
    ResponseIsNoticed(table, terms, os);
  }

  lemma {:induction false} ResponseIsNoticed(table: Table, terms: seq<Term>, os: seq<Outcome<Atom>>)
    requires GoodClause(table, terms) && |os| == |terms|
    requires forall i :: 0 <= i < |os| ==> os[i] == Ok(AtomOf(terms[i]), table[terms[i].subject].isResponse)
    ensures (exists i :: 0 <= i < |os| && os[i].isResponse) <==> LooksAtResponse(table, terms)
  {
    if LooksAtResponse(table, terms) {
      var i :| 0 <= i < |terms| && terms[i].subject in table && table[terms[i].subject].isResponse;
      assert os[i].isResponse;
    }
  }

  /** The condition that was written down. */
  function Meant(table: Table, clauses: seq<seq<Term>>): Outcome<seq<Checker>> {
    Ok(seq(|clauses|, i requires 0 <= i < |clauses| => CheckerOf(clauses[i])),
       exists i :: 0 <= i < |clauses| && LooksAtResponse(table, clauses[i]))
  }

  /** Whatever the environment, a condition that is written down and parsed comes back:
      the same lines, each with the same alternatives, negations and arguments, and it
      looks at the response exactly when one of its checks does. */
  lemma {:induction false} ConditionRoundTrip(env: Environment, table: Table, clauses: seq<seq<Term>>)
    requires forall i :: 0 <= i < |clauses| ==> GoodClause(table, clauses[i]) && NoAndClause(clauses[i])
    ensures ParseCondition(env, table, PrintCondition(clauses)) == Meant(table, clauses)
  {
    var lines := ClauseTexts(clauses);
    forall i | 0 <= i < |clauses|
      ensures IsLine(lines[i])
      ensures ParseLine(env, table, lines[i]) == Ok(CheckerOf(clauses[i]), LooksAtResponse(table, clauses[i]))
    {
      ClauseIsLine(table, clauses[i]);
      ClauseIsRead(env, table, clauses[i]);
    }
    JoinedLines(lines);
    AllMeant(table, clauses, ParseLines(env, table, lines));
  }

  lemma {:induction false} AllMeant(table: Table, clauses: seq<seq<Term>>, os: seq<Outcome<Checker>>)
    requires |os| == |clauses|
    requires forall i :: 0 <= i < |os| ==> os[i] == Ok(CheckerOf(clauses[i]), LooksAtResponse(table, clauses[i]))
    ensures All(os) == Meant(table, clauses)
  {
    AllOk(os, seq(|clauses|, i requires 0 <= i < |clauses| => CheckerOf(clauses[i])));
    assert forall i :: 0 <= i < |clauses| ==> os[i].isResponse == LooksAtResponse(table, clauses[i]);
    assert (exists i :: 0 <= i < |os| && os[i].isResponse) <==>
           (exists i :: 0 <= i < |clauses| && LooksAtResponse(table, clauses[i]));
  }
}

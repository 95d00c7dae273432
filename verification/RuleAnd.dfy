/** Lines are cut at every `&` and newline, inside quotes too. What becomes of a written
    condition with such a character in an argument: the argument's opening quote is left
    without its closing one, and the condition is rejected. */
module RuleAnd {
  import opened Common
  import opened RuleParser
  import opened RuleCondition
  import opened RuleOn
  import opened RuleText

  // ---------------------------------------------------------------- where an argument is cut

  lemma {:induction false} EscapeConcat(q: char, a: string, b: string)
    ensures Escape(q, a + b) == Escape(q, a) + Escape(q, b)
  {
    if a == "" {
      assert a + b == b;
    } else {
      assert (a + b)[1..] == a[1..] + b;
      AppendAssociates(EscapeChar(q, a[0]), Escape(q, a[1..]), Escape(q, b));
      EscapeConcat(q, a[1..], b);
    }
  }

  lemma {:induction false} EscapeAround(q: char, p: string, c: char, rest: string)
    requires IsAnd(c) && IsQuote(q)
    ensures Escape(q, p + [c] + rest) == Escape(q, p) + ([c] + Escape(q, rest))
  {
    assert p + [c] + rest == p + ([c] + rest);
    EscapeConcat(q, p, [c] + rest);
    assert ([c] + rest)[1..] == rest;
  }

  lemma {:induction false} CutText(text: string) returns (p: string, c: char, rest: string)
    requires !NoAnd(text)
    ensures text == p + [c] + rest && NoAnd(p) && IsAnd(c)
  {
    if IsAnd(text[0]) {
      p, c, rest := "", text[0], text[1..];
    } else {
      p, c, rest := CutText(text[1..]);
      p := [text[0]] + p;
    }
    assert text == [text[0]] + text[1..];
  }

  /** A quote that was opened, and what was written behind it. */
  function Opened(q: char, p: string): string {
    [q] + Escape(q, p)
  }

  function OpenedArgs(args: seq<Arg>, q: char, p: string): string {
    PrintArgs(args) + (" " + Opened(q, p))
  }

  lemma {:induction false} CutArg(a: Arg, more: string) returns (p: string, c: char, rest: string)
    requires GoodArg(a) && !NoAnd(a.text)
    ensures a.style.Quoted? && NoAnd(p) && IsAnd(c) && p <= a.text
    ensures " " + PrintArg(a) + more == (" " + Opened(a.style.q, p)) + ([c] + rest)
  {
    var q, r := a.style.q, "";
    p, c, r := CutText(a.text);
    EscapeAround(q, p, c, r);
    rest := Escape(q, r) + [q] + more;
    Regroup(q, Escape(q, p), c, Escape(q, r), more);
  }

  lemma {:induction false} Regroup(q: char, e1: string, c: char, e2: string, more: string)
    ensures " " + ([q] + (e1 + ([c] + e2)) + [q]) + more == (" " + ([q] + e1)) + ([c] + (e2 + [q] + more))
  {}

  /** The printed arguments up to the first cut: some whole ones, then an open quote. */
  lemma {:induction false} CutArgs(args: seq<Arg>) returns (i: nat, p: string, c: char, rest: string)
    requires GoodArgs(args) && !NoAndArgs(args)
    ensures i < |args| && args[i].style.Quoted? && NoAndArgs(args[..i]) && NoAnd(p) && IsAnd(c) && p <= args[i].text
    ensures PrintArgs(args) == OpenedArgs(args[..i], args[i].style.q, p) + ([c] + rest)
  {
    if !NoAnd(args[0].text) {
      i := 0;
      p, c, rest := CutArg(args[0], PrintArgs(args[1..]));
      assert args[..0] == [] && PrintArgs([]) == "";
    } else {
      var j;
      j, p, c, rest := CutArgs(args[1..]);
      i := j + 1;
      CutLater(args, i, args[i].style.q, p, [c] + rest);
    }
  }

  lemma {:induction false} CutLater(args: seq<Arg>, i: nat, q: char, p: string, rest: string)
    requires 0 < i <= |args| && PrintArgs(args[1..]) == OpenedArgs(args[1..][..i - 1], q, p) + rest
    requires NoAnd(args[0].text) && NoAndArgs(args[1..][..i - 1])
    ensures PrintArgs(args) == OpenedArgs(args[..i], q, p) + rest && NoAndArgs(args[..i])
  {
    var first, others := " " + PrintArg(args[0]), PrintArgs(args[1..][..i - 1]);
    assert args[..i] == [args[0]] + args[1..][..i - 1];
    assert args[..i][1..] == args[1..][..i - 1];
    AppendAssociates(first, others, " " + Opened(q, p));
    AppendAssociates(first, OpenedArgs(args[1..][..i - 1], q, p), rest);
  }

  // ---------------------------------------------------------------- an open quote is an error

  lemma {:induction false} OpenQuoteRun(env: Environment, s: State, subject: string, args: seq<string>, q: char, p: string)
    requires Settled(s, subject, args) && IsQuote(q) && (q == '`' ==> '`' !in p) && AllInTable(p)
    ensures var r := Run(env, s, " " + Opened(q, p)); r.Stopped? || (r.Going? && r.state.quote == q)
  {
    var f := Flush(s, false);
    var open := f.(quote := q);
    RunConcat(env, s, " ", Opened(q, p));
    RunOne(env, s, ' ');
    RunConcat(env, f, [q], Escape(q, p));
    RunOne(env, f, q);
    assert Step(env, f, q) == Going(open);
    QuotedText(env, open, p);
  }

  lemma {:induction false} OpenQuoteFails(p: Progress)
    requires p.Stopped? || (p.Going? && IsQuote(p.state.quote))
    ensures Finish(p).Parsed? && Finish(p).errors != []
  {}

  lemma {:induction false} OpenQuoteIsError(env: Environment, subject: string, args: seq<Arg>, q: char, p: string)
    requires IsWord(subject) && GoodArgs(args) && IsQuote(q) && (q == '`' ==> '`' !in p) && AllInTable(p)
    ensures var r := ParseText(env, subject + OpenedArgs(args, q, p)); r.Parsed? && r.errors != []
  {
    var v, w := Print(subject, args), " " + Opened(q, p);
    PrintRead(env, subject, args);
    RunConcat(env, START, v, w);
    AppendAssociates(subject, PrintArgs(args), w);
    OpenQuoteRun(env, Run(env, START, v).state, subject, Texts(args), q, p);
    OpenQuoteFails(Run(env, START, v + w));
  }

  /** A head, whole arguments and an open quote: what is left of a term that is cut. */
  datatype Cut = Cut(head: string, args: seq<Arg>, q: char, p: string)

  function Remains(cut: Cut): string {
    cut.head + OpenedArgs(cut.args, cut.q, cut.p)
  }

  predicate GoodCut(cut: Cut) {
    && IsName(cut.head) && GoodArgs(cut.args) && IsQuote(cut.q)
    && (cut.q == '`' ==> '`' !in cut.p) && AllInTable(cut.p)
  }

  lemma {:induction false} CutIsError(env: Environment, table: Table, cut: Cut)
    requires GoodCut(cut)
    ensures ParseAtom(env, table, Remains(cut)).Err?
  {
    OpenQuoteIsError(env, cut.head, cut.args, cut.q, cut.p);
  }

  // ---------------------------------------------------------------- trimming leaves the quote open

  lemma {:induction false} EscapeLast(q: char, p: string)
    requires p != "" && IsQuote(q)
    ensures var n, c := |p| - 1, p[|p| - 1];
            && Escape(q, p) == Escape(q, p[..n]) + EscapeChar(q, c)
            && (IsSpace(c) ==> EscapeChar(q, c) == [c])
            && (!IsSpace(c) ==> !IsSpace(EscapeChar(q, c)[|EscapeChar(q, c)| - 1]))
  {
    var n, c := |p| - 1, p[|p| - 1];
    assert p == p[..n] + [c];
    EscapeConcat(q, p[..n], [c]);
    assert [c][1..] == "";
    assert Escape(q, [c]) == EscapeChar(q, c);
  }

  lemma {:induction false} LastOf(x: string, q: char, p: string)
    requires IsQuote(q)
    ensures var s := x + Opened(q, p);
            && s != ""
            && if p == "" then s[|s| - 1] == q
               else (var n, c := |p| - 1, p[|p| - 1];
                     && (IsSpace(c) ==> s[|s| - 1] == c && s[..|s| - 1] == x + Opened(q, p[..n]))
                     && (!IsSpace(c) ==> !IsSpace(s[|s| - 1])))
  {
    if p != "" {
      EscapeLast(q, p);
    }
  }

  lemma {:induction false} AsciiTrimCuts(x: string, q: char, p: string) returns (p': string)
    requires IsQuote(q)
    ensures p' <= p && AsciiTrimRight(x + Opened(q, p)) == x + Opened(q, p')
    decreases |p|
  {
    LastOf(x, q, p);
    p' := p;
    if p != "" && IsAsciiSpace(p[|p| - 1]) {
      p' := AsciiTrimCuts(x, q, p[..|p| - 1]);
    }
  }

  lemma {:induction false} TrimCuts(x: string, q: char, p: string) returns (p': string)
    requires IsQuote(q)
    ensures p' <= p && TrimRight(x + Opened(q, p)) == x + Opened(q, p')
    decreases |p|
  {
    LastOf(x, q, p);
    p' := p;
    if p != "" && IsSpace(p[|p| - 1]) {
      p' := TrimCuts(x, q, p[..|p| - 1]);
    }
  }

  /** Everything before the text behind the open quote. */
  function Before(cut: Cut): string {
    cut.head + (PrintArgs(cut.args) + " ")
  }

  lemma {:induction false} RemainsEnd(cut: Cut)
    ensures Remains(cut) == Before(cut) + Opened(cut.q, cut.p)
  {
    AppendAssociates(PrintArgs(cut.args), " ", Opened(cut.q, cut.p));
    AppendAssociates(cut.head, PrintArgs(cut.args) + " ", Opened(cut.q, cut.p));
  }

  lemma {:induction false} ShorterCut(cut: Cut, p: string)
    requires GoodCut(cut) && p <= cut.p
    ensures GoodCut(cut.(p := p))
  {}

  lemma {:induction false} TrimmedCutIsError(env: Environment, table: Table, cut: Cut)
    requires GoodCut(cut)
    ensures ParseAtom(env, table, TrimSpace(Remains(cut))).Err?
  {
    assert TrimLeft(Remains(cut)) == Remains(cut);
    RemainsEnd(cut);
    var p := TrimCuts(Before(cut), cut.q, cut.p);
    ShorterCut(cut, p);
    RemainsEnd(cut.(p := p));
    CutIsError(env, table, cut.(p := p));
  }

  // ---------------------------------------------------------------- the line that is cut

  lemma {:induction false} OpenChar(l: Lex, q: char, c: char)
    requires IsQuote(q) && l.quote == q && !l.escaped && (q == '`' ==> c != '`')
    ensures var e := EscapeChar(q, c);
            NoCuts(l, e) && LexRun(l, e).quote == q && !LexRun(l, e).escaped
  {
    var e := EscapeChar(q, c);
    if c == '\\' || c == q {
      assert e[1..] == [c] && [c][1..] == "";
      assert Next(Next(l, '\\'), c) == l;
      assert LexRun(l, e) == LexRun(Next(Next(l, '\\'), c), "");
    } else if c == '$' {
      assert e[1..] == "$" && "$"[1..] == "";
      assert LexRun(l, e) == LexRun(Next(Next(l, '$'), '$'), "");
    } else {
      assert e[1..] == "";
      assert LexRun(l, e) == LexRun(Next(l, c), "");
    }
  }

  lemma {:induction false} OpenNoCuts(l: Lex, q: char, p: string)
    requires IsQuote(q) && l.quote == q && !l.escaped && (q == '`' ==> '`' !in p)
    ensures NoCuts(l, Escape(q, p))
    decreases |p|
  {
    if p != "" {
      var e := EscapeChar(q, p[0]);
      OpenChar(l, q, p[0]);
      OpenNoCuts(LexRun(l, e), q, p[1..]);
      NoCutsConcat(l, e, Escape(q, p[1..]));
    }
  }

  lemma {:induction false} CutHasNoPipes(cut: Cut)
    requires GoodCut(cut)
    ensures NoCuts(FRESH, Remains(cut))
  {
    var l := Lex(false, cut.q, 0);
    NameIsInert(0, cut.head);
    ArgsAreInert(cut.args);
    InertConcat(FRESH, cut.head, FRESH, PrintArgs(cut.args), FRESH);
    InertChar(FRESH, ' ');
    InertConcat(FRESH, cut.head + PrintArgs(cut.args), FRESH, " ", FRESH);
    AppendAssociates(cut.head, PrintArgs(cut.args), " ");
    InertChar(FRESH, cut.q);
    InertConcat(FRESH, Before(cut), FRESH, [cut.q], l);
    OpenNoCuts(l, cut.q, cut.p);
    NoCutsConcat(FRESH, Before(cut) + [cut.q], Escape(cut.q, cut.p));
    AppendAssociates(Before(cut), [cut.q], Escape(cut.q, cut.p));
    RemainsEnd(cut);
  }

  /** What comes before the last of some joined texts. */
  function Lead(sep: string, texts: seq<string>): string {
    if texts == [] then "" else texts[0] + (sep + Lead(sep, texts[1..]))
  }

  lemma {:induction false} JoinLead(sep: string, texts: seq<string>, others: seq<string>)
    requires others != []
    ensures Join(sep, texts + others) == Lead(sep, texts) + Join(sep, others)
  {
    if texts == [] {
      assert texts + others == others;
    } else {
      assert (texts + others)[1..] == texts[1..] + others;
      JoinLead(sep, texts[1..], others);
      AppendAssociates(texts[0] + sep, Lead(sep, texts[1..]), Join(sep, others));
      AppendAssociates(texts[0], sep, Lead(sep, texts[1..]));
    }
  }

  lemma {:induction false} JoinLast(sep: string, texts: seq<string>, last: string)
    ensures Join(sep, texts + [last]) == Lead(sep, texts) + last
  {
    JoinLead(sep, texts, [last]);
  }

  lemma {:induction false} PiecesOfCut(texts: seq<string>, last: string)
    requires AllWhole(texts) && last != "" && NoCuts(FRESH, last)
    ensures var ps := Pieces(FRESH, Lead(OR, texts) + last);
            TrimAll(ps) == texts + [TrimSpace(last)] && ps[|ps| - 1] != ""
  {
    if texts == [] {
      NoCutsIsOnePiece(FRESH, last);
      assert Lead(OR, texts) + last == last;
      assert [last][1..] == [] && TrimAll([last]) == [TrimSpace(last)] + TrimAll([]);
    } else {
      var t, rest := texts[0], Lead(OR, texts[1..]) + last;
      PiecesOfCut(texts[1..], last);
      PieceThenRest(t, rest);
      LeadFirst(texts, last);
      assert texts == [t] + texts[1..];
    }
  }

  lemma {:induction false} LeadFirst(texts: seq<string>, last: string)
    requires texts != []
    ensures Lead(OR, texts) + last == (texts[0] + " ") + "|" + (" " + (Lead(OR, texts[1..]) + last))
  {
    var rest := Lead(OR, texts[1..]);
    AppendAssociates(texts[0], OR + rest, last);
    AppendAssociates(OR, rest, last);
    assert texts[0] + (OR + (rest + last)) == (texts[0] + " ") + "|" + (" " + (rest + last));
  }

  lemma {:induction false} OneErrIsErr<T>(os: seq<Outcome<T>>, i: nat)
    requires i < |os| && os[i].Err?
    ensures All(os).Err?
  {
    if i < |os| - 1 {
      OneErrIsErr(os[..|os| - 1], i);
    }
  }

  /** A line that ends in the remains of a term is rejected. */
  lemma {:induction false} CutLineIsError(env: Environment, table: Table, texts: seq<string>, cut: Cut)
    requires AllWhole(texts) && GoodCut(cut)
    ensures ParseLine(env, table, Lead(OR, texts) + Remains(cut)).Err?
  {
    var line, last := Lead(OR, texts) + Remains(cut), Remains(cut);
    CutHasNoPipes(cut);
    PiecesOfCut(texts, last);
    var alts := Alternatives(line);
    assert alts == texts + [TrimSpace(last)];
    if texts == [] {
      assert line == last;
      CutIsError(env, table, cut);
    } else {
      TrimmedCutIsError(env, table, cut);
      OneErrIsErr(ParseAtoms(env, table, alts), |texts|);
    }
  }

  lemma {:induction false} TrimmedLineIsError(env: Environment, table: Table, texts: seq<string>, cut: Cut)
    requires AllWhole(texts) && GoodCut(cut)
    ensures var line := AsciiTrim(Lead(OR, texts) + Remains(cut)); line != "" && ParseLine(env, table, line).Err?
  {
    var lead := Lead(OR, texts);
    LeadStarts(texts, cut);
    RemainsEnd(cut);
    AppendAssociates(lead, Before(cut), Opened(cut.q, cut.p));
    var p := AsciiTrimCuts(lead + Before(cut), cut.q, cut.p);
    var cut' := cut.(p := p);
    ShorterCut(cut, p);
    RemainsEnd(cut');
    AppendAssociates(lead, Before(cut'), Opened(cut'.q, cut'.p));
    CutLineIsError(env, table, texts, cut');
  }

  lemma {:induction false} LeadStarts(texts: seq<string>, cut: Cut)
    requires AllWhole(texts) && GoodCut(cut)
    ensures var s := Lead(OR, texts) + Remains(cut); s != "" && AsciiTrimLeft(s) == s
  {
    var s := Lead(OR, texts) + Remains(cut);
    if texts == [] {
      assert s[0] == cut.head[0];
    } else {
      assert s[0] == texts[0][0];
    }
  }

  // ---------------------------------------------------------------- the condition

  /** The first cut of a clause: whole alternatives without cuts, then the remains of one. */
  lemma {:induction false} CutClause(terms: seq<Term>) returns (k: nat, cut: Cut, c: char, rest: string)
    requires (forall i :: 0 <= i < |terms| ==> GoodTerm(terms[i])) && !NoAndClause(terms)
    ensures k < |terms| && NoAndClause(terms[..k]) && GoodCut(cut) && NoAnd(Remains(cut)) && IsAnd(c)
    ensures PrintTerm(terms[k]) == Remains(cut) + ([c] + rest)
  {
    k := FirstWithAnd(terms);
    var t := terms[k];
    var i, p;
    i, p, c, rest := CutArgs(t.args);
    cut := Cut(Head(t), t.args[..i], t.args[i].style.q, p);
    HeadIsName(t);
    AppendAssociates(Head(t), OpenedArgs(cut.args, cut.q, p), [c] + rest);
    RemainsNoAnd(cut);
  }

  lemma {:induction false} FirstWithAnd(terms: seq<Term>) returns (k: nat)
    requires !NoAndClause(terms)
    ensures k < |terms| && !NoAndArgs(terms[k].args) && NoAndClause(terms[..k])
  {
    if !NoAndArgs(terms[0].args) {
      k := 0;
    } else {
      var j := FirstWithAnd(terms[1..]);
      k := j + 1;
      assert forall i :: 0 < i < k ==> terms[..k][i] == terms[1..][..j][i - 1];
    }
  }

  lemma {:induction false} RemainsNoAnd(cut: Cut)
    requires GoodCut(cut) && NoAndArgs(cut.args) && NoAnd(cut.p)
    ensures NoAnd(Remains(cut))
  {
    ArgsNoAnd(cut.args);
    EscapeNoAnd(cut.q, cut.p);
    assert NoAnd(cut.head);
  }

  lemma {:induction false} LeadNoAnd(texts: seq<string>)
    requires forall i :: 0 <= i < |texts| ==> NoAnd(texts[i])
    ensures NoAnd(Lead(OR, texts))
  {
    if texts != [] {
      LeadNoAnd(texts[1..]);
    }
  }

  /** Joined texts, up to some place in one of them and on. */
  lemma {:induction false} JoinCut(sep: string, texts: seq<string>, k: nat, x: string, y: string) returns (rest: string)
    requires k < |texts| && texts[k] == x + y
    ensures Join(sep, texts) == Lead(sep, texts[..k]) + (x + (y + rest))
  {
    rest := JoinFrom(sep, texts[k..], x, y);
    JoinLead(sep, texts[..k], texts[k..]);
    assert texts == texts[..k] + texts[k..];
  }

  lemma {:induction false} JoinFrom(sep: string, texts: seq<string>, x: string, y: string) returns (rest: string)
    requires texts != [] && texts[0] == x + y
    ensures Join(sep, texts) == x + (y + rest)
  {
    if |texts| == 1 {
      rest := "";
      assert y + rest == y;
    } else {
      var more := Join(sep, texts[1..]);
      rest := sep + more;
      AppendAssociates(x + y, sep, more);
      AppendAssociates(x, y, rest);
    }
  }

  /** The text of a clause, up to its first cut and on. */
  lemma {:induction false} ClauseText(terms: seq<Term>, k: nat, x: string, y: string) returns (rest: string)
    requires k < |terms| && PrintTerm(terms[k]) == x + y
    ensures PrintClause(terms) == (Lead(OR, TermTexts(terms[..k])) + x) + (y + rest)
  {
    rest := JoinCut(OR, TermTexts(terms), k, x, y);
    assert TermTexts(terms)[..k] == TermTexts(terms[..k]);
    AppendAssociates(Lead(OR, TermTexts(terms[..k])), x, y + rest);
  }

  /** Lines before the first cut are read as they are. */
  lemma {:induction false} LinesUpToCut(lines: seq<string>, x: string, c: char, rest: string)
    requires AreLines(lines) && NoAnd(x) && IsAnd(c)
    ensures LinesOf(Lead(AND, lines) + (x + ([c] + rest))) == lines + (OrNothing(AsciiTrim(x)) + LinesOf(rest))
  {
    FirstCut(x, c, rest);
    LinesOfLead(lines, x + ([c] + rest));
  }

  lemma {:induction false} LinesOfLead(lines: seq<string>, v: string)
    requires AreLines(lines)
    ensures LinesOf(Lead(AND, lines) + v) == lines + LinesOf(v)
  {
    if lines == [] {
      assert Lead(AND, lines) + v == v && lines + LinesOf(v) == LinesOf(v);
    } else {
      var more := Lead(AND, lines[1..]) + v;
      LinesOfLead(lines[1..], v);
      LeadLine(lines, v);
      LineThenRest(lines[0], more);
      FirstOnce(lines, LinesOf(v));
    }
  }

  lemma {:induction false} FirstOnce(lines: seq<string>, others: seq<string>)
    requires lines != []
    ensures [lines[0]] + (lines[1..] + others) == lines + others
  {}

  lemma {:induction false} LeadLine(lines: seq<string>, v: string)
    requires lines != []
    ensures Lead(AND, lines) + v == lines[0] + AND + (Lead(AND, lines[1..]) + v)
  {
    AppendAssociates(lines[0], AND + Lead(AND, lines[1..]), v);
    AppendAssociates(AND, Lead(AND, lines[1..]), v);
    AppendAssociates(lines[0], AND, Lead(AND, lines[1..]) + v);
  }

  predicate GoodTerms(terms: seq<Term>) {
    terms != [] && forall i :: 0 <= i < |terms| ==> GoodTerm(terms[i])
  }

  lemma {:induction false} TermsAreLine(terms: seq<Term>)
    requires GoodTerms(terms) && NoAndClause(terms)
    ensures IsLine(PrintClause(terms))
  {
    TextsAreWhole(terms);
    JoinedIsLine(TermTexts(terms));
  }

  lemma {:induction false} TextsAreWhole(terms: seq<Term>)
    requires (forall i :: 0 <= i < |terms| ==> GoodTerm(terms[i])) && NoAndClause(terms)
    ensures var texts := TermTexts(terms); AllWhole(texts) && forall i :: 0 <= i < |texts| ==> NoAnd(texts[i])
  {
    forall i | 0 <= i < |terms|
      ensures Whole(TermTexts(terms)[i]) && NoAnd(TermTexts(terms)[i])
    {
      TermIsWhole(terms[i]);
      TermNoAnd(terms[i]);
    }
  }

  lemma {:induction false} FirstClauseWithAnd(clauses: seq<seq<Term>>, upTo: nat) returns (m: nat)
    requires upTo < |clauses| && !NoAndClause(clauses[upTo])
    ensures m <= upTo && !NoAndClause(clauses[m]) && forall i :: 0 <= i < m ==> NoAndClause(clauses[i])
  {
    m := upTo;
    if i :| 0 <= i < upTo && !NoAndClause(clauses[i]) {
      m := FirstClauseWithAnd(clauses, i);
    }
  }

  /** The text of a condition up to the first cut of its clause `m`. */
  lemma {:induction false} ConditionText(clauses: seq<seq<Term>>, m: nat, x: string, y: string) returns (rest: string)
    requires m < |clauses| && PrintClause(clauses[m]) == x + y
    ensures PrintCondition(clauses) == Lead(AND, ClauseTexts(clauses[..m])) + (x + (y + rest))
  {
    rest := JoinCut(AND, ClauseTexts(clauses), m, x, y);
    assert ClauseTexts(clauses)[..m] == ClauseTexts(clauses[..m]);
  }

  /** An argument with `&` or a newline makes its condition an error, for every table of
      checks and every environment. */
  lemma {:induction false} AndInArgumentIsError(env: Environment, table: Table, clauses: seq<seq<Term>>, u: nat)
    requires (forall i :: 0 <= i < |clauses| ==> GoodTerms(clauses[i])) && u < |clauses| && !NoAndClause(clauses[u])
    ensures ParseCondition(env, table, PrintCondition(clauses)).Err?
  {
    var m := FirstClauseWithAnd(clauses, u);
    var k, cut, c, tail := CutClause(clauses[m]);
    TextsAreWhole(clauses[m][..k]);
    var before := TermTexts(clauses[m][..k]);
    var x := Lead(OR, before) + Remains(cut);
    LeadNoAnd(before);
    var tail2 := ClauseText(clauses[m], k, Remains(cut), [c] + tail);
    AppendAssociates([c], tail, tail2);
    var rest := ConditionText(clauses, m, x, [c] + (tail + tail2));
    AppendAssociates([c], tail + tail2, rest);
    var lines := ClauseTexts(clauses[..m]);
    forall i | 0 <= i < m
      ensures IsLine(lines[i])
    {
      TermsAreLine(clauses[i]);
    }
    CutConditionIsError(env, table, lines, before, cut, c, tail + tail2 + rest);
  }

  lemma {:induction false} CutConditionIsError(env: Environment, table: Table, lines: seq<string>, texts: seq<string>, cut: Cut, c: char, rest: string)
    requires AreLines(lines) && AllWhole(texts) && GoodCut(cut) && IsAnd(c) && NoAnd(Lead(OR, texts) + Remains(cut))
    ensures ParseCondition(env, table, Lead(AND, lines) + ((Lead(OR, texts) + Remains(cut)) + ([c] + rest))).Err?
  {
    var x := Lead(OR, texts) + Remains(cut);
    var s := Lead(AND, lines) + (x + ([c] + rest));
    LinesUpToCut(lines, x, c, rest);
    TrimmedLineIsError(env, table, texts, cut);
    var all := LinesOf(s);
    assert all[|lines|] == AsciiTrim(x);
    OneErrIsErr(ParseLines(env, table, all), |lines|);
  }

  /** A written condition comes back if and only if no argument holds `&` or a newline. */
  lemma {:induction false} ConditionComesBackIffNoAnd(env: Environment, table: Table, clauses: seq<seq<Term>>)
    requires forall i :: 0 <= i < |clauses| ==> GoodClause(table, clauses[i])
    ensures ParseCondition(env, table, PrintCondition(clauses)) == Meant(table, clauses) <==>
            forall i :: 0 <= i < |clauses| ==> NoAndClause(clauses[i])
  {
    if u :| 0 <= u < |clauses| && !NoAndClause(clauses[u]) {
      AndInArgumentIsError(env, table, clauses, u);
    } else {
      ConditionRoundTrip(env, table, clauses);
    }
  }

  /** One unknown check, or one that refuses its arguments, makes its whole line an error. */
  lemma {:induction false} UnknownLineIsError(env: Environment, table: Table, terms: seq<Term>, k: nat)
    requires GoodTerms(terms) && k < |terms| && !Known(table, terms[k])
    ensures ParseLine(env, table, PrintClause(terms)).Err?
  {
    var texts := TermTexts(terms);
    forall i | 0 <= i < |terms|
      ensures Whole(texts[i])
    {
      TermIsWhole(terms[i]);
    }
    JoinedAlternatives(texts);
    UnknownIsError(env, table, terms[k]);
    if |terms| == 1 {
      assert PrintClause(terms) == texts[0];
    } else {
      OneErrIsErr(ParseAtoms(env, table, texts), k);
    }
  }

  lemma {:induction false} UnknownConditionIsError(env: Environment, table: Table, clauses: seq<seq<Term>>, m: nat)
    requires forall i :: 0 <= i < |clauses| ==> GoodTerms(clauses[i]) && NoAndClause(clauses[i])
    requires m < |clauses| && !GoodClause(table, clauses[m])
    ensures ParseCondition(env, table, PrintCondition(clauses)).Err?
  {
    var lines := ClauseTexts(clauses);
    forall i | 0 <= i < |clauses|
      ensures IsLine(lines[i])
    {
      TermsAreLine(clauses[i]);
    }
    JoinedLines(lines);
    var k :| 0 <= k < |clauses[m]| && !Known(table, clauses[m][k]);
    UnknownLineIsError(env, table, clauses[m], k);
    OneErrIsErr(ParseLines(env, table, lines), m);
  }

  /** A written condition is accepted, and then means what was written, if and only if no
      argument holds `&` or a newline and every check is known and accepts its arguments. */
  lemma {:induction false} ConditionIsAcceptedIff(env: Environment, table: Table, clauses: seq<seq<Term>>)
    requires forall i :: 0 <= i < |clauses| ==> GoodTerms(clauses[i])
    ensures var r := ParseCondition(env, table, PrintCondition(clauses));
            if forall i :: 0 <= i < |clauses| ==> NoAndClause(clauses[i]) && GoodClause(table, clauses[i])
            then r == Meant(table, clauses) else r.Err?
  {
    if u :| 0 <= u < |clauses| && !NoAndClause(clauses[u]) {
      AndInArgumentIsError(env, table, clauses, u);
    } else if u :| 0 <= u < |clauses| && !GoodClause(table, clauses[u]) {
      UnknownConditionIsError(env, table, clauses, u);
    } else {
      ConditionRoundTrip(env, table, clauses);
    }
  }

  /** A condition of one check with one argument, in double quotes. */
  function OneCheck(subject: string, text: string): seq<seq<Term>> {
    [[Term(false, subject, [Arg(Quoted('\"'), text)])]]
  }

  lemma {:induction false} OneCheckText(subject: string, text: string)
    ensures PrintCondition(OneCheck(subject, text)) == subject + (" \"" + Escape('\"', text) + "\"")
  {
    var arg := Arg(Quoted('\"'), text);
    var t := Term(false, subject, [arg]);
    assert [arg][1..] == [] && PrintArgs([arg]) == " " + PrintArg(arg) + "";
    assert PrintArgs([arg]) == " \"" + Escape('\"', text) + "\"";
    assert TermTexts([t]) == [PrintTerm(t)];
    assert ClauseTexts([[t]]) == [PrintTerm(t)];
  }

  lemma {:induction false} PlainEscape()
    ensures Escape('\"', "x&y") == "x&y"
  {
    assert "x&y"[1..] == "&y" && "&y"[1..] == "y" && "y"[1..] == "";
    assert Escape('\"', "y") == "y";
    assert Escape('\"', "&y") == "&y";
  }

  /** For example a quoted ampersand. */
  lemma {:induction false} QuotedAmpersandIsError(env: Environment, table: Table)
    ensures ParseCondition(env, table, "a \"x&y\"").Err?
  {
    OneCheckText("a", "x&y");
    PlainEscape();
    assert "a" + (" \"" + "x&y" + "\"") == "a \"x&y\"";
    ExampleIsGood();
    AndInArgumentIsError(env, table, OneCheck("a", "x&y"), 0);
  }

  lemma {:induction false} ExampleIsGood()
    ensures var clauses := OneCheck("a", "x&y"); GoodTerms(clauses[0]) && !NoAndClause(clauses[0])
  {
    var t := OneCheck("a", "x&y")[0][0];
    assert "a"[1..] == "" && Balanced("a", 0);
    assert "x&y"[1..] == "&y" && "&y"[1..] == "y" && "y"[1..] == "";
    assert Balanced("y", 0) && Balanced("&y", 0) && Balanced("x&y", 0);
    assert IsAnd(t.args[0].text[1]) && !NoAnd(t.args[0].text);
  }
}

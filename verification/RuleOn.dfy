/** Parsing of a rule's condition, what it means, and the round trip from a condition
    written down as text back to itself. */
module RuleOn {
  import opened Common
  import opened RuleParser
  import opened RuleCondition

  /** A check with its arguments, possibly negated. */
  datatype Atom = Atom(negate: bool, subject: string, args: seq<string>)

  /** The known checks: which arguments they accept, and whether they look at the response. */
  datatype Entry = Entry(accepts: seq<string> -> bool, isResponse: bool)

  type Table = map<string, Entry>

  datatype Checker = Single(atom: Atom) | AnyOf(atoms: seq<Atom>)

  datatype Outcome<T> = Ok(value: T, isResponse: bool) | Err

  function ParseAtom(env: Environment, table: Table, text: string): Outcome<Atom> {
    var p := ParseText(env, text);
    if p.Crashed? || p.errors != [] then Err
    else
      var negate := p.subject != "" && p.subject[0] == '!';
      var subject := if negate then p.subject[1..] else p.subject;
      if subject in table && table[subject].accepts(p.args) then
        Ok(Atom(negate, subject, p.args), table[subject].isResponse)
      else Err
  }

  /** All of the values, or an error if one of them is missing. */
  function All<T>(os: seq<Outcome<T>>): Outcome<seq<T>> {
    if os == [] then Ok([], false)
    else
      var init, last := All(os[..|os| - 1]), os[|os| - 1];
      if init.Ok? && last.Ok? then Ok(init.value + [last.value], init.isResponse || last.isResponse) else Err
  }

  function ParseAtoms(env: Environment, table: Table, texts: seq<string>): seq<Outcome<Atom>> {
    seq(|texts|, i requires 0 <= i < |texts| => ParseAtom(env, table, texts[i]))
  }

  /** A line is read as its alternatives if there are several, and whole otherwise. */
  function ParseLine(env: Environment, table: Table, line: string): Outcome<Checker> {
    if |Alternatives(line)| > 1 then
      var r := All(ParseAtoms(env, table, Alternatives(line)));
      if r.Ok? then Ok(AnyOf(r.value), r.isResponse) else Err
    else
      var r := ParseAtom(env, table, line);
      if r.Ok? then Ok(Single(r.value), r.isResponse) else Err
  }

  /** The recursive parser. An alternative never splits again, so the recursion is one
      level deep and its results are single checks, as the caller takes for granted. */
  method ParseOn(env: Environment, table: Table, line: string) returns (r: Outcome<Checker>)
    ensures r == ParseLine(env, table, line)
    decreases |Alternatives(line)| > 1
  {
    var ors := SplitPipe(line);
    if |ors| > 1 {
      var atoms: seq<Atom> := [];
      var isResponse, failed := false, false;
      for i := 0 to |ors|
        invariant All(ParseAtoms(env, table, ors[..i])) == if failed then Err else Ok(atoms, isResponse)
      {
        SplittingIsIdempotent(line, i);
        AllNextAtom(env, table, ors, i);
        var cur := ParseOn(env, table, ors[i]);
        if cur.Err? {
          failed := true;
        } else {
          assert cur.value.Single?;
          isResponse := isResponse || cur.isResponse;
          atoms := atoms + [cur.value.atom];
        }
      }
      assert ors[..|ors|] == ors;
      return if failed then Err else Ok(AnyOf(atoms), isResponse);
    }
    var atom := ParseAtom(env, table, line);
    return if atom.Ok? then Ok(Single(atom.value), atom.isResponse) else Err;
  }

  lemma {:induction false} AllNextAtom(env: Environment, table: Table, texts: seq<string>, i: nat)
    requires i < |texts|
    ensures var init, last := All(ParseAtoms(env, table, texts[..i])), ParseAtom(env, table, texts[i]);
            All(ParseAtoms(env, table, texts[..i + 1]))
            == if init.Ok? && last.Ok? then Ok(init.value + [last.value], init.isResponse || last.isResponse) else Err
  {
    var all := ParseAtoms(env, table, texts[..i + 1]);
    assert all[..i] == ParseAtoms(env, table, texts[..i]);
  }

  // ---------------------------------------------------------------- lines

  predicate IsAnd(c: char) {
    c == '&' || c == '\n'
  }

  predicate IsAsciiSpace(c: char) {
    c == ' ' || '\t' <= c <= '\r'
  }

  function IndexAnd(s: string): (i: int)
    ensures -1 <= i < |s|
    ensures i >= 0 ==> IsAnd(s[i]) && forall j :: 0 <= j < i ==> !IsAnd(s[j])
    ensures i < 0 ==> forall j :: 0 <= j < |s| ==> !IsAnd(s[j])
  {
    if s == "" then -1
    else if IsAnd(s[0]) then 0
    else var i := IndexAnd(s[1..]); if i < 0 then -1 else i + 1
  }

  function AsciiTrimLeft(s: string): string {
    if s == "" then "" else if IsAsciiSpace(s[0]) then AsciiTrimLeft(s[1..]) else s
  }

  function AsciiTrimRight(s: string): string {
    if s == "" then "" else if IsAsciiSpace(s[|s| - 1]) then AsciiTrimRight(s[..|s| - 1]) else s
  }

  function AsciiTrim(s: string): string {
    AsciiTrimRight(AsciiTrimLeft(s))
  }

  /** The non-empty trimmed segments between `&` and newlines. */
  function LinesOf(s: string): seq<string>
    decreases |s|
  {
    var end := IndexAnd(s);
    if end < 0 then OrNothing(TrimSpace(s))
    else OrNothing(AsciiTrim(s[..end])) + LinesOf(s[end + 1..])
  }

  method TrimSegment(s: string) returns (r: string)
    ensures r == AsciiTrim(s)
  {
    var beg, end := 0, |s|;
    while beg < end && IsAsciiSpace(s[beg])
      invariant 0 <= beg <= end && AsciiTrimLeft(s[beg..]) == AsciiTrimLeft(s)
    {
      assert s[beg..][1..] == s[beg + 1..];
      beg := beg + 1;
    }
    assert AsciiTrimLeft(s) == s[beg..];
    assert s[beg..end] == s[beg..];
    while end - 1 > beg && IsAsciiSpace(s[end - 1])
      invariant beg <= end <= |s| && AsciiTrimRight(s[beg..end]) == AsciiTrim(s)
      invariant beg < |s| ==> beg < end
      decreases end
    {
      assert s[beg..end][..end - beg - 1] == s[beg..end - 1];
      end := end - 1;
    }
    return s[beg..end];
  }

  method SplitAnd(text: string) returns (a: seq<string>)
    ensures a == LinesOf(text)
  {
    a := [];
    var s := text;
    while IndexAnd(s) >= 0
      invariant LinesOf(text) == a + LinesOf(s)
      decreases |s|
    {
      var end := IndexAnd(s);
      var segment := TrimSegment(s[..end]);
      NextLine(a, s);
      a := a + OrNothing(segment);
      s := s[end + 1..];
    }
    var last := TrimSpace(s);
    a := a + OrNothing(last);
  }

  lemma {:induction false} NextLine(a: seq<string>, s: string)
    requires IndexAnd(s) >= 0
    ensures a + LinesOf(s) == (a + OrNothing(AsciiTrim(s[..IndexAnd(s)]))) + LinesOf(s[IndexAnd(s) + 1..])
  {
    var first, rest := OrNothing(AsciiTrim(s[..IndexAnd(s)])), LinesOf(s[IndexAnd(s) + 1..]);
    assert LinesOf(s) == first + rest;
    assert a + (first + rest) == (a + first) + rest;
  }

  function ParseLines(env: Environment, table: Table, lines: seq<string>): seq<Outcome<Checker>> {
    seq(|lines|, i requires 0 <= i < |lines| => ParseLine(env, table, lines[i]))
  }

  function ParseCondition(env: Environment, table: Table, text: string): Outcome<seq<Checker>> {
    All(ParseLines(env, table, LinesOf(text)))
  }

  lemma {:induction false} AllNextLine(env: Environment, table: Table, lines: seq<string>, i: nat)
    requires i < |lines|
    ensures var init, last := All(ParseLines(env, table, lines[..i])), ParseLine(env, table, lines[i]);
            All(ParseLines(env, table, lines[..i + 1]))
            == if init.Ok? && last.Ok? then Ok(init.value + [last.value], init.isResponse || last.isResponse) else Err
  {
    var all := ParseLines(env, table, lines[..i + 1]);
    assert all[..i] == ParseLines(env, table, lines[..i]);
  }

  method Parse(env: Environment, table: Table, v: string) returns (r: Outcome<seq<Checker>>)
    ensures r == ParseCondition(env, table, v)
  {
    var lines := SplitAnd(v);
    var checks: seq<Checker> := [];
    var isResponse, failed := false, false;
    for i := 0 to |lines|
      invariant All(ParseLines(env, table, lines[..i])) == if failed then Err else Ok(checks, isResponse)
    {
      AllNextLine(env, table, lines, i);
      var parsed := ParseOn(env, table, lines[i]);
      if parsed.Err? {
        failed := true;
      } else {
        isResponse := isResponse || parsed.isResponse;
        checks := checks + [parsed.value];
      }
    }
    assert lines[..|lines|] == lines;
    return if failed then Err else Ok(checks, isResponse);
  }
}

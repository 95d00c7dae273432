/** Rule conditions: lines that must all hold, each a choice of alternatives separated
    by pipes, each alternative a possibly negated check with arguments. */
module RuleCondition {
  import opened RuleParser

  // ---------------------------------------------------------------- splitting at pipes

  /** What the splitter remembers: an escape, the open quote and the open brackets. */
  datatype Lex = Lex(escaped: bool, quote: char, brackets: nat)

  const FRESH := Lex(false, NO_QUOTE, 0)

  function Next(l: Lex, c: char): Lex {
    if l.escaped then l.(escaped := false)
    else if c == '\\' then l.(escaped := true)
    else if IsQuote(c) then
      if l.quote == NO_QUOTE && l.brackets == 0 then l.(quote := c)
      else if c == l.quote then l.(quote := NO_QUOTE)
      else l
    else if c == '(' then l.(brackets := l.brackets + 1)
    else if c == ')' then (if l.brackets > 0 then l.(brackets := l.brackets - 1) else l)
    else l
  }

  /** A pipe outside quotes, brackets and escapes. */
  predicate Cuts(l: Lex, c: char) {
    c == '|' && l == FRESH
  }

  /** The untrimmed pieces between the cuts; always at least one. */
  function Pieces(l: Lex, s: string): (ps: seq<string>)
    ensures |ps| >= 1
    decreases |s|
  {
    if s == "" then [""]
    else if Cuts(l, s[0]) then [""] + Pieces(FRESH, s[1..])
    else
      var rest := Pieces(Next(l, s[0]), s[1..]);
      [[s[0]] + rest[0]] + rest[1..]
  }

  function TrimRight(s: string): string {
    if s == "" then "" else if IsSpace(s[|s| - 1]) then TrimRight(s[..|s| - 1]) else s
  }

  function TrimSpace(s: string): string {
    TrimRight(TrimLeft(s))
  }

  function TrimAll(ps: seq<string>): seq<string> {
    if ps == [] then [] else [TrimSpace(ps[0])] + TrimAll(ps[1..])
  }

  /** The trimmed pieces; a last piece is left out when it is empty. */
  function Alternatives(s: string): seq<string> {
    var ps := Pieces(FRESH, s);
    TrimAll(if ps[|ps| - 1] == "" then ps[..|ps| - 1] else ps)
  }

  method SplitPipe(s: string) returns (result: seq<string>)
    ensures result == Alternatives(s)
  {
    if s == "" {
      assert Pieces(FRESH, s) == [""];
      return [];
    }
    result := [];
    var current := "";
    var l := FRESH;
    ghost var done: seq<string> := [];
    PrependNone(Pieces(FRESH, s));
    assert s[0..] == s;
    for i := 0 to |s|
      invariant result == TrimAll(done)
      invariant Pieces(FRESH, s) == done + Prepend(current, Pieces(l, s[i..]))
    {
      var c := s[i];
      assert s[i..][1..] == s[i + 1..];
      if Cuts(l, c) {
        TrimAllAppend(done, current);
        CutPiece(done, current, Pieces(FRESH, s[i + 1..]));
        result := result + [TrimSpace(current)];
        done := done + [current];
        current := "";
      } else {
        GrowPiece(current, c, Pieces(Next(l, c), s[i + 1..]));
        current := current + [c];
        l := Next(l, c);
      }
    }
    LastPiece(done, current);
    if |current| > 0 {
      TrimAllAppend(done, current);
      result := result + [TrimSpace(current)];
    }
  }

  function Prepend(head: string, ps: seq<string>): seq<string>
    requires ps != []
  {
    [head + ps[0]] + ps[1..]
  }

  lemma {:induction false} PrependNone(ps: seq<string>)
    requires ps != []
    ensures Prepend("", ps) == ps
  {
    assert "" + ps[0] == ps[0];
  }

  lemma {:induction false} CutPiece(done: seq<string>, current: string, ps: seq<string>)
    requires ps != []
    ensures done + Prepend(current, [""] + ps) == (done + [current]) + Prepend("", ps)
  {
    PrependNone(ps);
    assert current + "" == current && ([""] + ps)[1..] == ps;
  }

  lemma {:induction false} GrowPiece(current: string, c: char, ps: seq<string>)
    requires ps != []
    ensures Prepend(current, [[c] + ps[0]] + ps[1..]) == Prepend(current + [c], ps)
  {
    assert current + ([c] + ps[0]) == (current + [c]) + ps[0];
  }

  lemma {:induction false} LastPiece(done: seq<string>, current: string)
    ensures var ps := done + Prepend(current, [""]);
            ps == done + [current] && ps[..|ps| - 1] == done && ps[|ps| - 1] == current
  {
    assert current + "" == current;
  }

  lemma {:induction false} TrimAllAppend(ps: seq<string>, p: string)
    ensures TrimAll(ps + [p]) == TrimAll(ps) + [TrimSpace(p)]
  {
    if ps != [] {
      assert (ps + [p])[1..] == ps[1..] + [p];
      TrimAllAppend(ps[1..], p);
    } else {
      assert ps + [p] == [p] && [p][1..] == [];
    }
  }

  // ---------------------------------------------------------------- cutting is stable

  function LexRun(l: Lex, s: string): Lex
    decreases |s|
  {
    if s == "" then l else LexRun(Next(l, s[0]), s[1..])
  }

  predicate NoCuts(l: Lex, s: string)
    decreases |s|
  {
    s == "" || (!Cuts(l, s[0]) && NoCuts(Next(l, s[0]), s[1..]))
  }

  lemma {:induction false} NoCutsConcat(l: Lex, a: string, b: string)
    ensures NoCuts(l, a + b) <==> NoCuts(l, a) && NoCuts(LexRun(l, a), b)
    ensures LexRun(l, a + b) == LexRun(LexRun(l, a), b)
    decreases |a|
  {
    if a == "" {
      assert a + b == b;
    } else {
      assert (a + b)[1..] == a[1..] + b;
      NoCutsConcat(Next(l, a[0]), a[1..], b);
    }
  }

  /** Each piece, read on its own, has nothing left to cut. */
  lemma {:induction false} PiecesHaveNoCuts(l: Lex, s: string)
    ensures NoCuts(l, Pieces(l, s)[0])
    ensures forall i :: 0 < i < |Pieces(l, s)| ==> NoCuts(FRESH, Pieces(l, s)[i])
    decreases |s|
  {
    if s != "" {
      if Cuts(l, s[0]) {
        PiecesHaveNoCuts(FRESH, s[1..]);
      } else {
        PiecesHaveNoCuts(Next(l, s[0]), s[1..]);
        var rest := Pieces(Next(l, s[0]), s[1..]);
        assert ([s[0]] + rest[0])[1..] == rest[0];
      }
    }
  }

  lemma {:induction false} NoCutsIsOnePiece(l: Lex, s: string)
    requires NoCuts(l, s)
    ensures Pieces(l, s) == [s]
    decreases |s|
  {
    if s != "" {
      NoCutsIsOnePiece(Next(l, s[0]), s[1..]);
      assert [s[0]] + s[1..] == s;
    }
  }

  lemma {:induction false} TrimLeftNoCuts(s: string)
    requires NoCuts(FRESH, s)
    ensures NoCuts(FRESH, TrimLeft(s))
  {
    if s != "" && IsSpace(s[0]) {
      assert Next(FRESH, s[0]) == FRESH;
      TrimLeftNoCuts(s[1..]);
    }
  }

  lemma {:induction false} TrimRightNoCuts(l: Lex, s: string)
    requires NoCuts(l, s)
    ensures NoCuts(l, TrimRight(s))
  {
    if s != "" && IsSpace(s[|s| - 1]) {
      NoCutsConcat(l, s[..|s| - 1], s[|s| - 1..]);
      assert s[..|s| - 1] + s[|s| - 1..] == s;
      TrimRightNoCuts(l, s[..|s| - 1]);
    }
  }

  predicate Trimmed(s: string) {
    s == "" || (!IsSpace(s[0]) && !IsSpace(s[|s| - 1]))
  }

  lemma {:induction false} TrimRightTrims(s: string)
    ensures TrimRight(s) <= s
    ensures TrimRight(s) == "" || !IsSpace(TrimRight(s)[|TrimRight(s)| - 1])
  {
    if s != "" && IsSpace(s[|s| - 1]) {
      TrimRightTrims(s[..|s| - 1]);
    }
  }

  lemma {:induction false} TrimLeftTrims(s: string)
    ensures TrimLeft(s) == "" || !IsSpace(TrimLeft(s)[0])
  {
    if s != "" && IsSpace(s[0]) {
      TrimLeftTrims(s[1..]);
    }
  }

  lemma {:induction false} TrimSpaceTrims(s: string)
    ensures Trimmed(TrimSpace(s))
    ensures Trimmed(s) ==> TrimSpace(s) == s
  {
    TrimLeftTrims(s);
    TrimRightTrims(TrimLeft(s));
  }

  lemma {:induction false} TrimAllAt(ps: seq<string>, i: nat)
    requires i < |ps|
    ensures |TrimAll(ps)| == |ps| && TrimAll(ps)[i] == TrimSpace(ps[i])
  {
    if i > 0 {
      TrimAllAt(ps[1..], i - 1);
    } else if |ps| > 1 {
      TrimAllAt(ps[1..], 0);
    }
  }

  /** A trimmed text without cuts is its own only alternative. */
  lemma {:induction false} OneAlternative(s: string)
    requires NoCuts(FRESH, s) && Trimmed(s)
    ensures Alternatives(s) == if s == "" then [] else [s]
  {
    NoCutsIsOnePiece(FRESH, s);
    TrimSpaceTrims(s);
    assert [s][..0] == [] && [s][1..] == [];
    assert TrimAll([s]) == [TrimSpace(s)] + TrimAll([]);
  }

  lemma {:induction false} AlternativeHasNoCuts(s: string, i: nat)
    requires i < |Alternatives(s)|
    ensures NoCuts(FRESH, Alternatives(s)[i]) && Trimmed(Alternatives(s)[i])
  {
    var ps := Pieces(FRESH, s);
    var used := if ps[|ps| - 1] == "" then ps[..|ps| - 1] else ps;
    if used != [] {
      TrimAllAt(used, 0);
    }
    TrimAllAt(used, i);
    PiecesHaveNoCuts(FRESH, s);
    assert NoCuts(FRESH, ps[i]);
    TrimLeftNoCuts(ps[i]);
    TrimRightNoCuts(FRESH, TrimLeft(ps[i]));
    TrimSpaceTrims(ps[i]);
  }

  /** Splitting an alternative again leaves it as it is: at most one part. */
  lemma {:induction false} SplittingIsIdempotent(s: string, i: nat)
    requires i < |Alternatives(s)|
    ensures var a := Alternatives(s)[i]; Alternatives(a) == if a == "" then [] else [a]
  {
    AlternativeHasNoCuts(s, i);
    OneAlternative(Alternatives(s)[i]);
  }

  function Join(sep: string, ps: seq<string>): string {
    if ps == [] then "" else if |ps| == 1 then ps[0] else ps[0] + sep + Join(sep, ps[1..])
  }

  /** Nothing but the cut pipes is lost. */
  lemma {:induction false} PiecesJoin(l: Lex, s: string)
    ensures Join("|", Pieces(l, s)) == s
    decreases |s|
  {
    if s != "" {
      if Cuts(l, s[0]) {
        PiecesJoin(FRESH, s[1..]);
        var rest := Pieces(FRESH, s[1..]);
        assert ([""] + rest)[1..] == rest;
        assert "" + "|" + Join("|", rest) == [s[0]] + s[1..];
      } else {
        PiecesJoin(Next(l, s[0]), s[1..]);
        var rest := Pieces(Next(l, s[0]), s[1..]);
        var ps := [[s[0]] + rest[0]] + rest[1..];
        assert ps[1..] == rest[1..];
        if |rest| > 1 {
          assert Join("|", ps) == [s[0]] + (rest[0] + "|" + Join("|", rest[1..]));
        }
        assert [s[0]] + s[1..] == s;
      }
    }
  }
}

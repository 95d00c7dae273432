/** Spaces around lines and alternatives do not matter, and blank lines do not count. */
module RulePadding {
  import opened Common
  import opened RuleParser
  import opened RuleCondition
  import opened RuleOn
  import opened RuleText

  /** The characters Unicode calls white space. */
  lemma {:induction false} SpacesExactly(c: char)
    ensures IsSpace(c) <==> c in {
      '\t', '\n', '\U{000B}', '\U{000C}', '\r', ' ', '\U{0085}', '\U{00A0}', '\U{1680}', '\U{2000}', '\U{2001}', '\U{2002}',
      '\U{2003}', '\U{2004}', '\U{2005}', '\U{2006}', '\U{2007}', '\U{2008}', '\U{2009}', '\U{200A}', '\U{2028}', '\U{2029}',
      '\U{202F}', '\U{205F}', '\U{3000}'}
    ensures IsAsciiSpace(c) <==> c in {'\t', '\n', '\U{000B}', '\U{000C}', '\r', ' '}
  {}

  predicate AllSpaces(s: string) {
    forall i :: 0 <= i < |s| ==> IsSpace(s[i])
  }

  predicate AllAsciiSpaces(s: string) {
    forall i :: 0 <= i < |s| ==> IsAsciiSpace(s[i])
  }

  // ---------------------------------------------------------------- trimming

  lemma {:induction false} TrimLeftPad(left: string, s: string)
    requires AllSpaces(left)
    ensures TrimLeft(left + s) == TrimLeft(s)
  {
    if left == "" {
      assert left + s == s;
    } else {
      assert (left + s)[1..] == left[1..] + s;
      TrimLeftPad(left[1..], s);
    }
  }

  lemma {:induction false} TrimRightPad(s: string, right: string)
    requires AllSpaces(right)
    ensures TrimRight(s + right) == TrimRight(s)
  {
    if right == "" {
      assert s + right == s;
    } else {
      assert (s + right)[..|s + right| - 1] == s + right[..|right| - 1];
      TrimRightPad(s, right[..|right| - 1]);
    }
  }

  lemma {:induction false} TrimPadded(left: string, s: string, right: string)
    requires AllSpaces(left) && AllSpaces(right) && Trimmed(s)
    ensures TrimSpace(left + (s + right)) == s
  {
    TrimLeftPad(left, s + right);
    TrimRightPad(s, right);
    if s == "" {
      assert s + right == right;
      TrimLeftPad(right, "");
      assert right + "" == right;
    } else {
      assert TrimLeft(s + right) == s + right;
    }
  }

  lemma {:induction false} AsciiTrimLeftPad(left: string, s: string)
    requires AllAsciiSpaces(left)
    ensures AsciiTrimLeft(left + s) == AsciiTrimLeft(s)
  {
    if left == "" {
      assert left + s == s;
    } else {
      assert (left + s)[1..] == left[1..] + s;
      AsciiTrimLeftPad(left[1..], s);
    }
  }

  lemma {:induction false} AsciiTrimRightPad(s: string, right: string)
    requires AllAsciiSpaces(right)
    ensures AsciiTrimRight(s + right) == AsciiTrimRight(s)
  {
    if right == "" {
      assert s + right == s;
    } else {
      assert (s + right)[..|s + right| - 1] == s + right[..|right| - 1];
      AsciiTrimRightPad(s, right[..|right| - 1]);
    }
  }

  lemma {:induction false} AsciiTrimPadded(left: string, s: string, right: string)
    requires AllAsciiSpaces(left) && AllAsciiSpaces(right) && Trimmed(s)
    ensures AsciiTrim(left + (s + right)) == s
  {
    AsciiTrimLeftPad(left, s + right);
    AsciiTrimRightPad(s, right);
    if s == "" {
      assert s + right == right;
      AsciiTrimLeftPad(right, "");
      assert right + "" == right;
    } else {
      assert AsciiTrimLeft(s + right) == s + right;
    }
  }

  // ---------------------------------------------------------------- lines

  /** A line, or nothing, with spaces around it, and what separates it from the next. */
  datatype Segment = Segment(left: string, line: string, right: string, sep: char)

  predicate GoodSegment(s: Segment) {
    && (forall i :: 0 <= i < |s.left| ==> s.left[i] in {' ', '\t', '\U{000B}', '\U{000C}', '\r'})
    && (forall i :: 0 <= i < |s.right| ==> s.right[i] in {' ', '\t', '\U{000B}', '\U{000C}', '\r'})
    && (s.line == "" || IsLine(s.line)) && (s.sep == '&' || s.sep == '\n')
  }

  function Padded(s: Segment): string {
    s.left + (s.line + s.right)
  }

  function Layout(segs: seq<Segment>): string {
    if segs == [] then ""
    else if |segs| == 1 then Padded(segs[0])
    else Padded(segs[0]) + ([segs[0].sep] + Layout(segs[1..]))
  }

  function LinesIn(segs: seq<Segment>): seq<string> {
    if segs == [] then [] else OrNothing(segs[0].line) + LinesIn(segs[1..])
  }

  lemma {:induction false} PaddedIsRead(s: Segment)
    requires GoodSegment(s)
    ensures NoAnd(Padded(s)) && AsciiTrim(Padded(s)) == s.line && TrimSpace(Padded(s)) == s.line
  {
    AsciiTrimPadded(s.left, s.line, s.right);
    TrimPadded(s.left, s.line, s.right);
  }

  /** However a condition is laid out, with `&` or newlines, spaces and blank lines: its
      lines are read. */
  lemma {:induction false} LayoutDoesNotMatter(segs: seq<Segment>)
    requires forall i :: 0 <= i < |segs| ==> GoodSegment(segs[i])
    ensures LinesOf(Layout(segs)) == LinesIn(segs)
  {
    if segs != [] {
      PaddedIsRead(segs[0]);
      if |segs| == 1 {
        assert IndexAnd(Padded(segs[0])) < 0;
        assert LinesIn(segs) == OrNothing(segs[0].line) + [];
      } else {
        LayoutDoesNotMatter(segs[1..]);
        FirstCut(Padded(segs[0]), segs[0].sep, Layout(segs[1..]));
      }
    }
  }

  // ---------------------------------------------------------------- alternatives

  datatype Alternative = Alternative(left: string, text: string, right: string)

  predicate GoodAlternative(a: Alternative) {
    AllSpaces(a.left) && AllSpaces(a.right) && Whole(a.text)
  }

  function PaddedText(a: Alternative): string {
    a.left + (a.text + a.right)
  }

  function Piped(alts: seq<Alternative>): string {
    if alts == [] then ""
    else if |alts| == 1 then PaddedText(alts[0])
    else PaddedText(alts[0]) + "|" + Piped(alts[1..])
  }

  function TextsIn(alts: seq<Alternative>): seq<string> {
    if alts == [] then [] else [alts[0].text] + TextsIn(alts[1..])
  }

  lemma {:induction false} SpacesAreInert(s: string)
    requires AllSpaces(s)
    ensures Inert(FRESH, s, FRESH)
  {
    if s != "" {
      SpacesAreInert(s[1..]);
    }
  }

  lemma {:induction false} PaddedIsInert(a: Alternative)
    requires GoodAlternative(a)
    ensures Inert(FRESH, PaddedText(a), FRESH) && PaddedText(a) != "" && TrimSpace(PaddedText(a)) == a.text
  {
    SpacesAreInert(a.left);
    SpacesAreInert(a.right);
    InertConcat(FRESH, a.text, FRESH, a.right, FRESH);
    InertConcat(FRESH, a.left, FRESH, a.text + a.right, FRESH);
    TrimPadded(a.left, a.text, a.right);
  }

  lemma {:induction false} PipedPieces(alts: seq<Alternative>)
    requires alts != [] && forall i :: 0 <= i < |alts| ==> GoodAlternative(alts[i])
    ensures var ps := Pieces(FRESH, Piped(alts)); TrimAll(ps) == TextsIn(alts) && ps[|ps| - 1] != ""
  {
    if |alts| == 1 {
      OnePiece(alts[0]);
      assert TextsIn(alts) == [alts[0].text];
    } else {
      PipedPieces(alts[1..]);
      PieceThenPieces(alts[0], Piped(alts[1..]));
    }
  }

  lemma {:induction false} OnePiece(a: Alternative)
    requires GoodAlternative(a)
    ensures Pieces(FRESH, PaddedText(a)) == [PaddedText(a)] && TrimAll([PaddedText(a)]) == [a.text] && PaddedText(a) != ""
  {
    PaddedIsInert(a);
    NoCutsIsOnePiece(FRESH, PaddedText(a));
    assert [PaddedText(a)][1..] == [];
  }

  lemma {:induction false} PieceThenPieces(a: Alternative, rest: string)
    requires GoodAlternative(a)
    ensures var ps, rs := Pieces(FRESH, PaddedText(a) + "|" + rest), Pieces(FRESH, rest);
            TrimAll(ps) == [a.text] + TrimAll(rs) && ps[|ps| - 1] == rs[|rs| - 1]
  {
    PaddedIsInert(a);
    CutAndTrim(PaddedText(a), rest, a.text);
  }

  lemma {:induction false} CutAndTrim(piece: string, rest: string, text: string)
    requires Inert(FRESH, piece, FRESH) && TrimSpace(piece) == text
    ensures var ps, rs := Pieces(FRESH, piece + "|" + rest), Pieces(FRESH, rest);
            TrimAll(ps) == [text] + TrimAll(rs) && ps[|ps| - 1] == rs[|rs| - 1]
  {
    CutAfter(FRESH, piece, rest);
    TrimFirst(piece, Pieces(FRESH, rest), Pieces(FRESH, piece + "|" + rest), text);
  }

  lemma {:induction false} TrimFirst(p: string, rs: seq<string>, ps: seq<string>, text: string)
    requires ps == [p] + rs && rs != [] && TrimSpace(p) == text
    ensures TrimAll(ps) == [text] + TrimAll(rs) && ps[|ps| - 1] == rs[|rs| - 1]
  {
    assert ps[1..] == rs;
  }

  /** Spaces around alternatives do not matter. */
  lemma {:induction false} SpacesAroundPipesDoNotMatter(alts: seq<Alternative>)
    requires alts != [] && forall i :: 0 <= i < |alts| ==> GoodAlternative(alts[i])
    ensures Alternatives(Piped(alts)) == TextsIn(alts)
  {
    PipedPieces(alts);
  }
}

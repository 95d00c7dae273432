/** The line structure of an access log: the non-empty newline-separated
    segments of a byte string, and the newline-terminated form the loggers write. */
module LogLines {
  type Byte = b: nat | b < 256
  type Text = seq<Byte>

  const NEWLINE: Byte := 10

  /** Splits at every newline; there is always at least one segment. */
  function Segments(t: Text): (segs: seq<Text>)
    ensures |segs| >= 1
  {
    if t == [] then [[]]
    else
      var rest := Segments(t[1..]);
      if t[0] == NEWLINE then [[]] + rest else [[t[0]] + rest[0]] + rest[1..]
  }

  function NonEmpty(segs: seq<Text>): seq<Text> {
    if segs == [] then []
    else if segs[0] == [] then NonEmpty(segs[1..])
    else [segs[0]] + NonEmpty(segs[1..])
  }

  /** The lines of a log: its non-empty segments, oldest first. */
  function Lines(t: Text): seq<Text> {
    NonEmpty(Segments(t))
  }

  /** The text of a list of lines, each one newline-terminated. */
  function Join(lines: seq<Text>): Text {
    if lines == [] then [] else lines[0] + [NEWLINE] + Join(lines[1..])
  }

  predicate IsLine(line: Text) {
    line != [] && NEWLINE !in line
  }

  predicate AllLines(lines: seq<Text>) {
    forall i :: 0 <= i < |lines| ==> IsLine(lines[i])
  }

  /** The log ends with the newline-terminated form of its own lines. */
  predicate Aligned(t: Text) {
    EndsIn(t, Join(Lines(t)))
  }

  /** The same for the lines from `k` on. */
  predicate AlignedFrom(t: Text, k: nat)
    requires k <= |Lines(t)|
  {
    EndsIn(t, Join(Lines(t)[k..]))
  }

  predicate EndsIn(t: Text, body: Text) {
    |body| <= |t| && t[|t| - |body|..] == body
  }

  lemma {:induction false} SegmentsSplit(a: Text, b: Text)
    ensures Segments(a + [NEWLINE] + b) == Segments(a) + Segments(b)
  {
    var t := a + [NEWLINE] + b;
    if a == [] {
      assert t[1..] == b;
    } else {
      assert t[1..] == a[1..] + [NEWLINE] + b;
      SegmentsSplit(a[1..], b);
    }
  }

  lemma {:induction false} SegmentsWhole(t: Text)
    requires NEWLINE !in t
    ensures Segments(t) == [t]
  {
    if t != [] {
      SegmentsWhole(t[1..]);
      assert t == [t[0]] + t[1..];
    }
  }

  lemma {:induction false} NonEmptyConcat(s1: seq<Text>, s2: seq<Text>)
    ensures NonEmpty(s1 + s2) == NonEmpty(s1) + NonEmpty(s2)
  {
    if s1 == [] {
      assert s1 + s2 == s2;
    } else {
      assert (s1 + s2)[1..] == s1[1..] + s2;
      NonEmptyConcat(s1[1..], s2);
    }
  }

  lemma {:induction false} LinesSplit(a: Text, b: Text)
    ensures Lines(a + [NEWLINE] + b) == Lines(a) + Lines(b)
  {
    SegmentsSplit(a, b);
    NonEmptyConcat(Segments(a), Segments(b));
  }

  lemma {:induction false} LinesWhole(t: Text)
    requires NEWLINE !in t
    ensures Lines(t) == if t == [] then [] else [t]
  {
    SegmentsWhole(t);
    assert NonEmpty([t]) == (if t == [] then [] else [t]) + NonEmpty([]);
  }

  /** A line feed, which is byte 10, ends a line. */
  lemma {:induction false} LineFeedEndsLine(line: Text, rest: Text)
    requires line != [] && 10 !in line
    ensures Lines(line + [10] + rest) == [line] + Lines(rest)
  {
    LinesSplit(line, rest);
    LinesWhole(line);
  }

  lemma {:induction false} SegmentsAreNewlineFree(t: Text)
    ensures forall i :: 0 <= i < |Segments(t)| ==> NEWLINE !in Segments(t)[i]
  {
    if t != [] {
      SegmentsAreNewlineFree(t[1..]);
    }
  }

  lemma {:induction false} NonEmptyMembers(segs: seq<Text>)
    requires forall i :: 0 <= i < |segs| ==> NEWLINE !in segs[i]
    ensures AllLines(NonEmpty(segs))
  {
    if segs != [] {
      NonEmptyMembers(segs[1..]);
    }
  }

  lemma {:induction false} LinesAreLines(t: Text)
    ensures AllLines(Lines(t))
  {
    SegmentsAreNewlineFree(t);
    NonEmptyMembers(Segments(t));
  }

  /** Reading back what was written: the lines of a newline-terminated log. */
  lemma {:induction false} LinesJoin(lines: seq<Text>)
    requires AllLines(lines)
    ensures Lines(Join(lines)) == lines
  {
    if lines != [] {
      LinesSplit(lines[0], Join(lines[1..]));
      LinesWhole(lines[0]);
      LinesJoin(lines[1..]);
    }
  }

  lemma {:induction false} JoinConcat(l1: seq<Text>, l2: seq<Text>)
    ensures Join(l1 + l2) == Join(l1) + Join(l2)
  {
    if l1 == [] {
      assert l1 + l2 == l2;
    } else {
      assert (l1 + l2)[1..] == l1[1..] + l2;
      JoinConcat(l1[1..], l2);
    }
  }

  // ---------------------------------------------------------------- alignment, byte by byte

  /** From the first byte of a line on, the log ends in a newline and has no two in a row:
      every line is terminated, and blank lines occur only before the first line. */
  predicate Terminated(t: Text) {
    forall i :: 0 <= i < |t| && t[i] != NEWLINE ==> t[|t| - 1] == NEWLINE && NoBlankAfter(t, i)
  }

  predicate NoBlankAfter(t: Text, i: nat) {
    forall j :: i < j < |t| - 1 ==> !BlankAt(t, j)
  }

  predicate BlankAt(t: Text, j: nat)
    requires j + 1 < |t|
  {
    t[j] == NEWLINE && t[j + 1] == NEWLINE
  }

  function FirstNewline(t: Text): (e: nat)
    ensures e <= |t| && NEWLINE !in t[..e] && (e < |t| ==> t[e] == NEWLINE)
  {
    if t == [] || t[0] == NEWLINE then 0 else
      var e := FirstNewline(t[1..]) + 1;
      assert t[..e] == [t[0]] + t[1..][..e - 1];
      e
  }

  /** The bytes that are not newlines. */
  function Visible(t: Text): Text {
    if t == [] then [] else (if t[0] == NEWLINE then [] else [t[0]]) + Visible(t[1..])
  }

  lemma {:induction false} VisibleConcat(a: Text, b: Text)
    ensures Visible(a + b) == Visible(a) + Visible(b)
  {
    if a == [] {
      assert a + b == b;
    } else {
      assert (a + b)[1..] == a[1..] + b;
      VisibleConcat(a[1..], b);
    }
  }

  /** The first line and the rest. */
  lemma {:induction false} FirstLine(t: Text)
    requires t != [] && t[0] != NEWLINE
    ensures var e := FirstNewline(t);
            && e > 0
            && (e == |t| ==> Lines(t) == [t])
            && (e < |t| ==> t == t[..e] + [NEWLINE] + t[e + 1..] && Lines(t) == [t[..e]] + Lines(t[e + 1..]))
  {
    var e := FirstNewline(t);
    LinesWhole(t[..e]);
    if e < |t| {
      assert t == t[..e] + [NEWLINE] + t[e + 1..];
      LinesSplit(t[..e], t[e + 1..]);
    } else {
      assert t[..e] == t;
    }
  }

  lemma {:induction false} LeadingBlank(t: Text)
    requires t != [] && t[0] == NEWLINE
    ensures Lines(t) == Lines(t[1..])
  {
    assert ([[]] + Segments(t[1..]))[1..] == Segments(t[1..]);
  }

  lemma {:induction false} JoinFirst(line: Text, rest: seq<Text>)
    ensures Join([line] + rest) == line + [NEWLINE] + Join(rest)
  {
    assert ([line] + rest)[1..] == rest;
  }

  /** Nothing but newlines is lost or added by taking a log apart and joining its lines. */
  lemma {:induction false} JoinKeepsVisible(t: Text)
    ensures Visible(Join(Lines(t))) == Visible(t)
    decreases |t|
  {
    if t == [] {
      LinesWhole(t);
    } else if t[0] == NEWLINE {
      LeadingBlank(t);
      JoinKeepsVisible(t[1..]);
    } else {
      FirstLine(t);
      var e := FirstNewline(t);
      var line, rest := t[..e], if e < |t| then t[e + 1..] else [];
      JoinKeepsVisible(rest);
      LinesWhole([]);
      assert e == |t| ==> line == t && [t] == [line] + Lines(rest);
      JoinFirst(line, Lines(rest));
      VisibleConcat(line + [NEWLINE], Join(Lines(rest)));
      VisibleConcat(line, [NEWLINE]);
      if e < |t| {
        VisibleConcat(line + [NEWLINE], rest);
      }
    }
  }

  /** A log that begins with a line is aligned exactly if it is its lines joined. */
  lemma {:induction false} AlignedIsExact(t: Text)
    requires t == [] || t[0] != NEWLINE
    ensures Aligned(t) <==> Join(Lines(t)) == t
  {
    var body := Join(Lines(t));
    if EndsIn(t, body) {
      var head := t[..|t| - |body|];
      assert t == head + body;
      JoinKeepsVisible(t);
      VisibleConcat(head, body);
      assert |Visible(head)| == 0;
    }
    if body == t {
      assert t[|t| - |body|..] == t;
    }
  }

  lemma {:induction false} JoinStartsWithLine(t: Text)
    ensures var body := Join(Lines(t)); body == [] || body[0] != NEWLINE
  {
    LinesAreLines(t);
  }

  lemma {:induction false} AlignedAfterBlank(t: Text)
    requires t != [] && t[0] == NEWLINE
    ensures Aligned(t) == Aligned(t[1..])
  {
    LeadingBlank(t);
    JoinStartsWithLine(t);
    SuffixOfRest(t, Join(Lines(t)));
  }

  lemma {:induction false} SuffixOfRest(t: Text, body: Text)
    requires t != [] && (body == [] || body[0] != t[0])
    ensures EndsIn(t, body) <==> EndsIn(t[1..], body)
  {
    if |body| < |t| {
      assert t[1..][|t[1..]| - |body|..] == t[|t| - |body|..];
    }
  }

  /** A log that begins with a line is aligned exactly if the line is terminated and the
      rest is empty, or begins with a line and is aligned. */
  lemma {:induction false} AlignedAfterLine(t: Text)
    requires t != [] && t[0] != NEWLINE
    ensures var e := FirstNewline(t);
            Aligned(t) <==> e < |t| && var rest := t[e + 1..]; rest == [] || (rest[0] != NEWLINE && Aligned(rest))
  {
    var e := FirstNewline(t);
    FirstLine(t);
    if e == |t| {
      JoinFirst(t, []);
      assert [t] == [t] + [];
    } else {
      var line, rest := t[..e], t[e + 1..];
      JoinFirst(line, Lines(rest));
      AlignedIsExact(t);
      assert Join(Lines(t)) == t <==> Join(Lines(rest)) == rest by {
        assert Join(Lines(t))[e + 1..] == Join(Lines(rest));
      }
      if rest == [] {
        LinesWhole(rest);
      } else if rest[0] == NEWLINE {
        JoinStartsWithLine(rest);
      } else {
        AlignedIsExact(rest);
      }
    }
  }

  lemma {:induction false} TerminatedAfterBlank(t: Text)
    requires t != [] && t[0] == NEWLINE
    ensures Terminated(t) <==> Terminated(t[1..])
  {
    var u := t[1..];
    assert forall j :: 0 <= j < |u| - 1 ==> BlankAt(u, j) == BlankAt(t, j + 1);
    if Terminated(t) {
      forall i | 0 <= i < |u| && u[i] != NEWLINE
        ensures u[|u| - 1] == NEWLINE && NoBlankAfter(u, i)
      {
        assert t[i + 1] != NEWLINE;
        forall j | i < j < |u| - 1
          ensures !BlankAt(u, j)
        {
          assert !BlankAt(t, j + 1);
        }
      }
    }
    if Terminated(u) {
      forall i | 0 <= i < |t| && t[i] != NEWLINE
        ensures t[|t| - 1] == NEWLINE && NoBlankAfter(t, i)
      {
        assert u[i - 1] != NEWLINE;
        forall j | i < j < |t| - 1
          ensures !BlankAt(t, j)
        {
          assert !BlankAt(u, j - 1);
        }
      }
    }
  }

  lemma {:induction false} TerminatedFromLine(t: Text)
    requires t != [] && t[0] != NEWLINE
    ensures Terminated(t) <==> t[|t| - 1] == NEWLINE && NoBlankAfter(t, 0)
  {}

  lemma {:induction false} TerminatedAfterLine(t: Text)
    requires t != [] && t[0] != NEWLINE
    ensures var e := FirstNewline(t);
            Terminated(t) <==> e < |t| && var rest := t[e + 1..]; rest == [] || (rest[0] != NEWLINE && Terminated(rest))
  {
    var e := FirstNewline(t);
    TerminatedFromLine(t);
    assert forall j :: 0 <= j < e ==> t[j] == t[..e][j] && t[j] != NEWLINE;
    if e < |t| - 1 {
      var rest := t[e + 1..];
      assert t[|t| - 1] == rest[|rest| - 1];
      assert forall j :: 0 <= j < |rest| - 1 ==> BlankAt(rest, j) == BlankAt(t, e + 1 + j);
      if rest[0] == NEWLINE {
        assert BlankAt(t, e);
      } else {
        TerminatedFromLine(rest);
        if NoBlankAfter(rest, 0) {
          forall j | 0 < j < |t| - 1
            ensures !BlankAt(t, j)
          {
            if j > e + 1 {
              assert !BlankAt(rest, j - e - 1);
            }
          }
        }
        if NoBlankAfter(t, 0) {
          forall j | 0 < j < |rest| - 1
            ensures !BlankAt(rest, j)
          {
            assert !BlankAt(t, e + 1 + j);
          }
        }
      }
    }
  }

  /** Line by line: blank lines, then terminated lines up to the end. */
  predicate LineByLine(t: Text)
    decreases |t|
  {
    if t == [] then true
    else if t[0] == NEWLINE then LineByLine(t[1..])
    else
      var e := FirstNewline(t);
      e < |t| && var rest := t[e + 1..]; rest == [] || (rest[0] != NEWLINE && LineByLine(rest))
  }

  lemma {:induction false} AlignedIffLineByLine(t: Text)
    ensures Aligned(t) == LineByLine(t)
    decreases |t|
  {
    if t == [] {
      LinesWhole(t);
    } else if t[0] == NEWLINE {
      AlignedAfterBlank(t);
      AlignedIffLineByLine(t[1..]);
    } else {
      AlignedAfterLine(t);
      if FirstNewline(t) < |t| {
        AlignedIffLineByLine(t[FirstNewline(t) + 1..]);
      }
    }
  }

  lemma {:induction false} TerminatedIffLineByLine(t: Text)
    ensures Terminated(t) == LineByLine(t)
    decreases |t|
  {
    if t != [] && t[0] == NEWLINE {
      TerminatedAfterBlank(t);
      TerminatedIffLineByLine(t[1..]);
    } else if t != [] {
      TerminatedAfterLine(t);
      if FirstNewline(t) < |t| {
        TerminatedIffLineByLine(t[FirstNewline(t) + 1..]);
      }
    }
  }

  /** Alignment can be read off the bytes. */
  lemma {:induction false} AlignedIffTerminated(t: Text)
    ensures Aligned(t) <==> Terminated(t)
  {
    AlignedIffLineByLine(t);
    TerminatedIffLineByLine(t);
  }
}

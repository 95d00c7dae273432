/** The byte ranges a rotation records, what they hold, and how copying them to the front
    of the file rearranges it. */
module LogRanges {
  import opened Common
  import opened LogLines
  import opened LogRetention

  datatype LineInfo = LineInfo(pos: int, size: nat)

  datatype RotateResult = RotateResult(
    originalSize: nat, numBytesRead: nat, numBytesKeep: nat,
    numLinesRead: nat, numLinesKeep: nat, numLinesInvalid: nat)

  const NO_RESULT := RotateResult(0, 0, 0, 0, 0, 0)

  // ---------------------------------------------------------------- byte ranges

  predicate InBounds(content: Text, r: LineInfo) {
    0 <= r.pos && r.pos + r.size <= |content|
  }

  function Slice(content: Text, r: LineInfo): Text {
    if InBounds(content, r) then content[r.pos..r.pos + r.size] else []
  }

  /** The text of the ranges in file order; ranges are listed newest first. */
  function Extract(content: Text, ranges: seq<LineInfo>): Text {
    if ranges == [] then []
    else Slice(content, ranges[|ranges| - 1]) + Extract(content, ranges[..|ranges| - 1])
  }

  function TotalSize(ranges: seq<LineInfo>): nat {
    if ranges == [] then 0 else ranges[|ranges| - 1].size + TotalSize(ranges[..|ranges| - 1])
  }

  /** Newest first, disjoint, and between the two positions. */
  predicate Descending(ranges: seq<LineInfo>, lo: int, hi: int) {
    if ranges == [] then lo <= hi
    else
      var oldest := ranges[|ranges| - 1];
      lo <= oldest.pos && Descending(ranges[..|ranges| - 1], oldest.pos + oldest.size, hi)
  }

  lemma {:induction false} DescendingFits(ranges: seq<LineInfo>, lo: int, hi: int)
    requires Descending(ranges, lo, hi)
    ensures lo + TotalSize(ranges) <= hi
  {
    if ranges != [] {
      var oldest := ranges[|ranges| - 1];
      DescendingFits(ranges[..|ranges| - 1], oldest.pos + oldest.size, hi);
    }
  }

  lemma {:induction false} SliceOfRest(content: Text, from: nat, r: LineInfo)
    requires InBounds(content, r) && from <= r.pos
    ensures Slice(content, r) == content[from..][r.pos - from..r.pos + r.size - from]
  {}

  lemma {:induction false} ExtractLength(content: Text, ranges: seq<LineInfo>, lo: nat)
    requires Descending(ranges, lo, |content|)
    ensures |Extract(content, ranges)| == TotalSize(ranges)
  {
    if ranges != [] {
      var oldest := ranges[|ranges| - 1];
      DescendingFits(ranges[..|ranges| - 1], oldest.pos + oldest.size, |content|);
      ExtractLength(content, ranges[..|ranges| - 1], oldest.pos + oldest.size);
    }
  }

  lemma {:induction false} TailSplits(content: Text, r: LineInfo)
    requires InBounds(content, r)
    ensures content[r.pos..] == Slice(content, r) + content[r.pos + r.size..]
  {}

  lemma {:induction false} OldestAtFloor(ranges: seq<LineInfo>, lo: int, hi: int)
    requires ranges != [] && Descending(ranges, lo, hi) && lo + TotalSize(ranges) == hi
    ensures var newer, oldest := ranges[..|ranges| - 1], ranges[|ranges| - 1];
            && oldest.pos == lo && lo + oldest.size <= hi
            && Descending(newer, lo + oldest.size, hi) && lo + oldest.size + TotalSize(newer) == hi
  {
    var oldest := ranges[|ranges| - 1];
    DescendingFits(ranges[..|ranges| - 1], oldest.pos + oldest.size, hi);
  }

  /** Ranges that add up to everything above `lo` leave no gap. */
  lemma {:induction false} ExtractEverything(content: Text, ranges: seq<LineInfo>, lo: nat)
    requires Descending(ranges, lo, |content|) && lo + TotalSize(ranges) == |content|
    ensures Extract(content, ranges) == content[lo..]
  {
    if ranges != [] {
      var newer, oldest := ranges[..|ranges| - 1], ranges[|ranges| - 1];
      OldestAtFloor(ranges, lo, |content|);
      ExtractEverything(content, newer, lo + oldest.size);
      TailSplits(content, oldest);
    }
  }

  /** One step of the copy: `line` is read from and written to a file whose bytes
      from `writePos` on are still the original ones. */
  lemma {:induction false} CopyStep(original: Text, before: Text, after: Text, writePos: nat, line: LineInfo)
    requires |before| == |original| && writePos <= line.pos && InBounds(original, line)
    requires before[writePos..] == original[writePos..]
    requires after == before[..writePos] + Slice(before, line) + before[writePos + line.size..]
    ensures |after| == |original|
    ensures after[..writePos + line.size] == before[..writePos] + Slice(original, line)
    ensures after[writePos + line.size..] == original[writePos + line.size..]
  {
    SliceOfRest(before, writePos, line);
    SliceOfRest(original, writePos, line);
    assert before[writePos + line.size..] == before[writePos..][line.size..];
    assert original[writePos + line.size..] == original[writePos..][line.size..];
  }

  /** How far the copy has got: `done` is at the front, the rest is untouched. */
  ghost predicate Copied(original: Text, content: Text, done: Text) {
    |content| == |original| && done <= content && content[|done|..] == original[|done|..]
  }

  lemma {:induction false} CopyAdvances(original: Text, before: Text, after: Text, done: Text, line: LineInfo)
    requires Copied(original, before, done) && |done| <= line.pos && InBounds(original, line)
    requires after == before[..|done|] + Slice(before, line) + before[|done| + line.size..]
    ensures Copied(original, after, done + Slice(original, line))
  {
    CopyStep(original, before, after, |done|, line);
  }

  // ---------------------------------------------------------------- rotation

  /** The file after a rotation that met no I/O error. */
  function Rotated(policy: Policy, dated: Dating, content: Text): Text {
    Join(Kept(policy, dated, Lines(content)))
  }

  /** Where the text of the newest lines sits in a log that is aligned from there on. */
  lemma {:induction false} NewestLinesAt(content: Text, j: nat)
    requires j < |Lines(content)| && AlignedFrom(content, j)
    ensures var newer := Join(Lines(content)[j + 1..]);
            var line := Lines(content)[j];
            && |Join(Lines(content)[j..])| == |line| + 1 + |newer| <= |content|
            && Slice(content, LineInfo(|content| - |newer| - |line| - 1, |line| + 1)) == line + [NEWLINE]
  {
    var lines := Lines(content);
    var r := LineInfo(|content| - |Join(lines[j..])|, |lines[j]| + 1);
    assert lines[j..][1..] == lines[j + 1..];
    SliceOfRest(content, r.pos, r);
    assert Join(lines[j..])[..r.size] == lines[j] + [NEWLINE];
  }

  lemma {:induction false} AlignedFurther(content: Text, k: nat, j: nat)
    requires k <= j <= |Lines(content)| && AlignedFrom(content, k)
    ensures AlignedFrom(content, j)
  {
    EndsInNewer(content, Lines(content)[k..], j - k);
    assert Lines(content)[k..][j - k..] == Lines(content)[j..];
  }

  lemma {:induction false} EndsInNewer(content: Text, lines: seq<Text>, m: nat)
    requires m <= |lines| && EndsIn(content, Join(lines))
    ensures EndsIn(content, Join(lines[m..]))
  {
    assert lines == lines[..m] + lines[m..];
    JoinConcat(lines[..m], lines[m..]);
    EndsInLater(content, Join(lines[..m]), Join(lines[m..]));
  }

  lemma {:induction false} EndsInLater(content: Text, older: Text, newest: Text)
    requires EndsIn(content, older + newest)
    ensures EndsIn(content, newest)
  {
    assert (older + newest)[|older|..] == newest;
  }

  lemma {:induction false} AlignedThroughout(content: Text, j: nat)
    requires j <= |Lines(content)| && Aligned(content)
    ensures AlignedFrom(content, j)
  {
    assert Lines(content)[0..] == Lines(content);
    AlignedFurther(content, 0, j);
  }

  /** Adds a line to the ranges, extending the last range when the line touches it. */
  function AddLine(ranges: seq<LineInfo>, lastLineValid: bool, linePos: int, lineSize: nat): seq<LineInfo>
    requires lastLineValid ==> ranges != []
  {
    if lastLineValid then
      var last := ranges[|ranges| - 1];
      ranges[..|ranges| - 1] + [LineInfo(last.pos - lineSize, last.size + lineSize)]
    else
      ranges + [LineInfo(linePos, lineSize)]
  }

  /** What the scan of `lines`, the lines of `text`, has established when `j` of
      them are still unread. */
  ghost predicate ScanInv(dated: Dating, text: Text, lines: seq<Text>, aligned: bool, j: nat,
                          ranges: seq<LineInfo>, bytesRead: nat, lastLineValid: bool)
  {
    && j <= |lines|
    && bytesRead == |Join(lines[j..])|
    && Descending(ranges, |text| - bytesRead, |text|)
    && (lastLineValid ==> ranges != [] && ranges[|ranges| - 1].pos == |text| - bytesRead)
    && (aligned ==> Extract(text, ranges) == Join(StampedLines(dated, lines[j..])))
  }

  lemma {:induction false} PreviousLine(dated: Dating, lines: seq<Text>, j: nat)
    requires 0 < j <= |lines|
    ensures |Join(lines[j - 1..])| == |lines[j - 1]| + 1 + |Join(lines[j..])|
    ensures dated(lines[j - 1]).None? ==> StampedLines(dated, lines[j - 1..]) == StampedLines(dated, lines[j..])
    ensures dated(lines[j - 1]).Some? ==>
              StampedLines(dated, lines[j - 1..]) == [lines[j - 1]] + StampedLines(dated, lines[j..])
  {
    assert lines[j - 1..][1..] == lines[j..];
  }

  lemma {:induction false} SkipLine(dated: Dating, text: Text, lines: seq<Text>, aligned: bool, j: nat,
                 ranges: seq<LineInfo>, bytesRead: nat, lastLineValid: bool)
    requires ScanInv(dated, text, lines, aligned, j, ranges, bytesRead, lastLineValid)
    requires j > 0 && dated(lines[j - 1]).None?
    ensures ScanInv(dated, text, lines, aligned, j - 1, ranges, bytesRead + |lines[j - 1]| + 1, false)
    ensures NumStamped(dated, lines[j - 1..]) == NumStamped(dated, lines[j..])
  {
    PreviousLine(dated, lines, j);
  }

  lemma {:induction false} AddLineRanges(ranges: seq<LineInfo>, lastLineValid: bool, lo: int, size: nat, hi: int)
    requires Descending(ranges, lo, hi)
    requires lastLineValid ==> ranges != [] && ranges[|ranges| - 1].pos == lo
    ensures var ranges' := AddLine(ranges, lastLineValid, lo - size, size);
            && ranges' != [] && ranges'[|ranges'| - 1].pos == lo - size
            && Descending(ranges', lo - size, hi)
            && TotalSize(ranges') == TotalSize(ranges) + size
  {
    var ranges' := AddLine(ranges, lastLineValid, lo - size, size);
    assert ranges'[..|ranges'| - 1] == if lastLineValid then ranges[..|ranges| - 1] else ranges;
  }

  lemma {:induction false} AddLineExtract(text: Text, ranges: seq<LineInfo>, lastLineValid: bool, lo: nat, size: nat)
    requires size <= lo <= |text| && Descending(ranges, lo, |text|)
    requires lastLineValid ==> ranges != [] && ranges[|ranges| - 1].pos == lo
    ensures Extract(text, AddLine(ranges, lastLineValid, lo - size, size))
         == Slice(text, LineInfo(lo - size, size)) + Extract(text, ranges)
  {
    var r := LineInfo(lo - size, size);
    if lastLineValid {
      OldestFits(ranges, lo, |text|);
      TouchingLine(text, ranges, r);
    } else {
      ExtractSnoc(text, ranges, r);
    }
  }

  lemma {:induction false} TouchingLine(text: Text, ranges: seq<LineInfo>, r: LineInfo)
    requires ranges != [] && InBounds(text, ranges[|ranges| - 1])
    requires 0 <= r.pos && r.pos + r.size == ranges[|ranges| - 1].pos
    ensures Extract(text, AddLine(ranges, true, r.pos, r.size)) == Slice(text, r) + Extract(text, ranges)
  {
    AddTouching(ranges, r);
    ExtendOldest(text, ranges, AddLine(ranges, true, r.pos, r.size), r);
  }

  lemma {:induction false} AddTouching(ranges: seq<LineInfo>, r: LineInfo)
    requires ranges != [] && r.pos + r.size == ranges[|ranges| - 1].pos
    ensures var after := AddLine(ranges, true, r.pos, r.size);
            && |after| == |ranges| && after[..|after| - 1] == ranges[..|ranges| - 1]
            && after[|after| - 1] == LineInfo(r.pos, r.size + ranges[|ranges| - 1].size)
  {}

  lemma {:induction false} ExtendOldest(text: Text, before: seq<LineInfo>, after: seq<LineInfo>, r: LineInfo)
    requires |after| == |before| > 0 && after[..|after| - 1] == before[..|before| - 1]
    requires InBounds(text, before[|before| - 1]) && 0 <= r.pos && r.pos + r.size == before[|before| - 1].pos
    requires after[|after| - 1] == LineInfo(r.pos, r.size + before[|before| - 1].size)
    ensures Extract(text, after) == Slice(text, r) + Extract(text, before)
  {
    var oldest := before[|before| - 1];
    TouchingSlices(text, r, oldest);
    AppendAssociates(Slice(text, r), Slice(text, oldest), Extract(text, before[..|before| - 1]));
  }

  lemma {:induction false} OldestFits(ranges: seq<LineInfo>, lo: int, hi: int)
    requires Descending(ranges, lo, hi) && ranges != []
    ensures var oldest := ranges[|ranges| - 1]; oldest.pos + oldest.size <= hi
  {
    var oldest := ranges[|ranges| - 1];
    DescendingFits(ranges[..|ranges| - 1], oldest.pos + oldest.size, hi);
  }

  lemma {:induction false} ExtractSnoc(text: Text, newer: seq<LineInfo>, oldest: LineInfo)
    ensures Extract(text, newer + [oldest]) == Slice(text, oldest) + Extract(text, newer)
  {
    assert (newer + [oldest])[..|newer|] == newer;
  }

  lemma {:induction false} TouchingSlices(text: Text, r: LineInfo, next: LineInfo)
    requires InBounds(text, next) && 0 <= r.pos && r.pos + r.size == next.pos
    ensures Slice(text, LineInfo(r.pos, r.size + next.size)) == Slice(text, r) + Slice(text, next)
  {}

  lemma {:induction false} KeepLineText(text: Text, ranges: seq<LineInfo>, lo: nat, lastLineValid: bool, size: nat,
                                        line: Text, newer: seq<Text>)
    requires size <= lo <= |text| && Descending(ranges, lo, |text|)
    requires lastLineValid ==> ranges != [] && ranges[|ranges| - 1].pos == lo
    requires Extract(text, ranges) == Join(newer) && Slice(text, LineInfo(lo - size, size)) == line + [NEWLINE]
    ensures Extract(text, AddLine(ranges, lastLineValid, lo - size, size)) == Join([line] + newer)
  {
    AddLineExtract(text, ranges, lastLineValid, lo, size);
    JoinFirst(line, newer);
  }

  lemma {:induction false} KeepLine(dated: Dating, text: Text, lines: seq<Text>, aligned: bool, j: nat,
                 ranges: seq<LineInfo>, bytesRead: nat, lastLineValid: bool, pos: int, size: nat)
    requires ScanInv(dated, text, lines, aligned, j, ranges, bytesRead, lastLineValid)
    requires j > 0 && dated(lines[j - 1]).Some? && size == |lines[j - 1]| + 1 && pos == |text| - bytesRead - size
    requires aligned ==> pos >= 0 && Slice(text, LineInfo(pos, size)) == lines[j - 1] + [NEWLINE]
    ensures ScanInv(dated, text, lines, aligned, j - 1, AddLine(ranges, lastLineValid, pos, size), bytesRead + size, true)
    ensures TotalSize(AddLine(ranges, lastLineValid, pos, size)) == TotalSize(ranges) + size
    ensures NumStamped(dated, lines[j - 1..]) == NumStamped(dated, lines[j..]) + 1
  {
    PreviousLine(dated, lines, j);
    AddLineRanges(ranges, lastLineValid, |text| - bytesRead, size, |text|);
    if aligned {
      KeepLineText(text, ranges, |text| - bytesRead, lastLineValid, size, lines[j - 1], StampedLines(dated, lines[j..]));
    }
  }

  /** Everything the scan loop carries from line to line. */
  datatype Selection = Selection(ranges: seq<LineInfo>, lastLineValid: bool, result: RotateResult)

  /** The counters when the lines from `first` on have been read and those from `j` on considered. */
  function Tally(dated: Dating, text: Text, lines: seq<Text>, first: nat, j: nat, bytesKept: nat): RotateResult
    requires first <= j <= |lines|
  {
    var stamped := NumStamped(dated, lines[j..]);
    RotateResult(|text|, |Join(lines[first..])|, bytesKept, |lines| - first, stamped, |lines| - j - stamped)
  }

  /** How many runs of lines with a stamp there are. */
  function Runs(dated: Dating, lines: seq<Text>): nat {
    if lines == [] then 0
    else if dated(lines[0]).Some? && (|lines| == 1 || dated(lines[1]).None?) then 1 + Runs(dated, lines[1..])
    else Runs(dated, lines[1..])
  }

  /** There is one range for each run of lines, and it is known whether the last goes on. */
  ghost predicate OneRangePerRun(dated: Dating, lines: seq<Text>, j: nat, sel: Selection)
    requires j <= |lines|
  {
    && |sel.ranges| == Runs(dated, lines[j..])
    && (sel.lastLineValid <==> j < |lines| && dated(lines[j]).Some?)
  }

  lemma {:induction false} RunsBefore(dated: Dating, lines: seq<Text>, j: nat, sel: Selection, size: nat)
    requires 0 < j <= |lines| && OneRangePerRun(dated, lines, j, sel) && (sel.lastLineValid ==> sel.ranges != [])
    ensures dated(lines[j - 1]).None? ==> OneRangePerRun(dated, lines, j - 1, Skipped(sel, size))
    ensures dated(lines[j - 1]).Some? ==> OneRangePerRun(dated, lines, j - 1, Included(sel, size))
  {
    assert lines[j - 1..][1..] == lines[j..];
  }

  ghost predicate SelectionInv(policy: Policy, dated: Dating, text: Text, lines: seq<Text>, aligned: bool,
                               j: nat, sel: Selection)
  {
    && j <= |lines|
    && ScanInv(dated, text, lines, aligned, j, sel.ranges, sel.result.numBytesRead, sel.lastLineValid)
    && NoStopFrom(policy, dated, lines, j)
    && OneRangePerRun(dated, lines, j, sel)
    && sel.result == Tally(dated, text, lines, j, j, TotalSize(sel.ranges))
  }

  /** The position computed from the bytes read so far is where the line is. */
  lemma {:induction false} PositionIsTrue(text: Text, lines: seq<Text>, j: nat, bytesRead: nat)
    requires lines == Lines(text) && 0 < j <= |lines| && bytesRead == |Join(lines[j..])|
    ensures AlignedFrom(text, j - 1) ==>
              && bytesRead + |lines[j - 1]| + 1 <= |text|
              && Slice(text, LineInfo(|text| - bytesRead - (|lines[j - 1]| + 1), |lines[j - 1]| + 1))
                 == lines[j - 1] + [NEWLINE]
  {
    if AlignedFrom(text, j - 1) {
      NewestLinesAt(text, j - 1);
    }
  }

  function Read(sel: Selection, lineSize: nat): Selection {
    sel.(result := sel.result.(numLinesRead := sel.result.numLinesRead + 1,
                               numBytesRead := sel.result.numBytesRead + lineSize))
  }

  function Skipped(sel: Selection, lineSize: nat): Selection {
    var read := Read(sel, lineSize);
    read.(lastLineValid := false, result := read.result.(numLinesInvalid := read.result.numLinesInvalid + 1))
  }

  function Included(sel: Selection, lineSize: nat): Selection
    requires sel.lastLineValid ==> sel.ranges != []
  {
    var read := Read(sel, lineSize);
    var linePos := sel.result.originalSize - sel.result.numBytesRead - lineSize;
    Selection(AddLine(sel.ranges, sel.lastLineValid, linePos, lineSize), true,
              read.result.(numBytesKeep := read.result.numBytesKeep + lineSize,
                           numLinesKeep := read.result.numLinesKeep + 1))
  }

  lemma {:induction false} SkippedKeepsInv(policy: Policy, dated: Dating, text: Text, lines: seq<Text>, aligned: bool,
                        j: nat, sel: Selection)
    requires SelectionInv(policy, dated, text, lines, aligned, j, sel)
    requires j > 0 && dated(lines[j - 1]).None?
    ensures SelectionInv(policy, dated, text, lines, aligned, j - 1, Skipped(sel, |lines[j - 1]| + 1))
  {
    NoStopExtends(policy, dated, lines, j);
    RunsBefore(dated, lines, j, sel, |lines[j - 1]| + 1);
    SkipLine(dated, text, lines, aligned, j, sel.ranges, sel.result.numBytesRead, sel.lastLineValid);
  }

  lemma {:induction false} IncludedKeepsInv(policy: Policy, dated: Dating, text: Text, lines: seq<Text>, aligned: bool,
                         j: nat, sel: Selection)
    requires SelectionInv(policy, dated, text, lines, aligned, j, sel)
    requires lines == Lines(text) && 0 < j && (aligned ==> TailAligned(policy, dated, text, lines))
    requires dated(lines[j - 1]).Some? && !StopsAt(policy, dated, lines, j - 1)
    ensures SelectionInv(policy, dated, text, lines, aligned, j - 1, Included(sel, |lines[j - 1]| + 1))
  {
    NoStopExtends(policy, dated, lines, j);
    RunsBefore(dated, lines, j, sel, |lines[j - 1]| + 1);
    if aligned {
      AlignedAtNext(policy, dated, text, lines, j);
    }
    IncludedLine(dated, text, lines, aligned, j, sel);
  }

  lemma {:induction false} AlignedAtNext(policy: Policy, dated: Dating, text: Text, lines: seq<Text>, j: nat)
    requires TailAligned(policy, dated, text, lines) && 0 < j <= |lines| && NoStopFrom(policy, dated, lines, j - 1)
    ensures AlignedFrom(text, j - 1)
  {
    AlignedFurther(text, KeepFrom(policy, dated, lines, |lines|), j - 1);
  }

  lemma {:induction false} IncludedLine(dated: Dating, text: Text, lines: seq<Text>, aligned: bool, j: nat, sel: Selection)
    requires sel.result.originalSize == |text|
    requires ScanInv(dated, text, lines, aligned, j, sel.ranges, sel.result.numBytesRead, sel.lastLineValid)
    requires lines == Lines(text) && 0 < j && (aligned ==> AlignedFrom(text, j - 1)) && dated(lines[j - 1]).Some?
    ensures var size := |lines[j - 1]| + 1; var sel' := Included(sel, size);
            && ScanInv(dated, text, lines, aligned, j - 1, sel'.ranges, sel.result.numBytesRead + size, true)
            && TotalSize(sel'.ranges) == TotalSize(sel.ranges) + size
            && NumStamped(dated, lines[j - 1..]) == NumStamped(dated, lines[j..]) + 1
  {
    var size := |lines[j - 1]| + 1;
    PositionIsTrue(text, lines, j, sel.result.numBytesRead);
    KeepLine(dated, text, lines, aligned, j, sel.ranges, sel.result.numBytesRead, sel.lastLineValid,
             |text| - sel.result.numBytesRead - size, size);
  }

  /** The counters of a scan that stopped with `j` lines left out: all that were read
      (including the one it stopped at), those kept and those without a stamp. */
  ghost predicate Accounts(dated: Dating, text: Text, lines: seq<Text>, j: nat, result: RotateResult)
    requires j <= |lines|
  {
    result == Tally(dated, text, lines, if j > 0 then j - 1 else 0, j, result.numBytesKeep)
  }

  /** The log is aligned from the oldest line that may be kept on. */
  ghost predicate TailAligned(policy: Policy, dated: Dating, text: Text, lines: seq<Text>) {
    lines == Lines(text) && AlignedFrom(text, KeepFrom(policy, dated, lines, |lines|))
  }

  /** The outcome of the scan: the ranges hold exactly the text of the kept lines, one for
      each run of them, and the counters say what was read, kept and skipped. */
  ghost predicate Selected(policy: Policy, dated: Dating, text: Text, lines: seq<Text>,
                           ranges: seq<LineInfo>, result: RotateResult)
  {
    var j := KeepFrom(policy, dated, lines, |lines|);
    && Accounts(dated, text, lines, j, result)
    && result.numBytesKeep == TotalSize(ranges)
    && |ranges| == Runs(dated, lines[j..])
    && Descending(ranges, |text| - |Join(lines[j..])|, |text|)
    && (TailAligned(policy, dated, text, lines) ==> Extract(text, ranges) == Join(StampedLines(dated, lines[j..])))
  }

  function Initial(size: nat): Selection {
    Selection([], false, NO_RESULT.(originalSize := size))
  }

  lemma {:induction false} ScanBegins(policy: Policy, dated: Dating, text: Text, lines: seq<Text>, aligned: bool)
    ensures SelectionInv(policy, dated, text, lines, aligned, |lines|, Initial(|text|))
  {
    assert lines[|lines|..] == [];
  }

  lemma {:induction false} NewestUnread(lines: seq<Text>, j: nat, older: seq<Text>, line: Text)
    requires j <= |lines| && lines[..j] == older + [line]
    ensures j > 0 && line == lines[j - 1] && older == lines[..j - 1]
  {
    assert lines[..j][..j - 1] == lines[..j - 1];
  }

  lemma {:induction false} ScanCompletes(policy: Policy, dated: Dating, text: Text, lines: seq<Text>, sel: Selection)
    requires SelectionInv(policy, dated, text, lines, TailAligned(policy, dated, text, lines), 0, sel)
    ensures Selected(policy, dated, text, lines, sel.ranges, sel.result)
  {}

  lemma {:induction false} ScanStops(policy: Policy, dated: Dating, text: Text, lines: seq<Text>, j: nat, sel: Selection)
    requires SelectionInv(policy, dated, text, lines, TailAligned(policy, dated, text, lines), j, sel)
    requires j > 0 && j == KeepFrom(policy, dated, lines, |lines|)
    ensures Selected(policy, dated, text, lines, sel.ranges, Read(sel, |lines[j - 1]| + 1).result)
  {
    PreviousLine(dated, lines, j);
  }

  /** What the operator asked for, on a log in which every line is terminated and no blank
      line comes after one. A number of lines counts if it is set: of a log whose lines are all
      stamped its newest lines are left. Otherwise the stamped lines are left that come after
      the newest line older than the cutoff. */
  ghost predicate LeavesAsked(last: nat, cutoff: int, dated: Dating, text: Text, content: Text) {
    var lines := Lines(text);
    if last > 0 then
      AllStamped(dated, lines) ==> content == Join(if |lines| <= last then lines else lines[|lines| - last..])
    else
      exists k :: 0 <= k <= |lines|
        && (k > 0 ==> IsOlder(dated, lines[k - 1], cutoff))
        && (forall i :: k <= i < |lines| ==> !IsOlder(dated, lines[i], cutoff))
        && content == Join(StampedLines(dated, lines[k..]))
  }

  predicate IsOlder(dated: Dating, line: Text, cutoff: int) {
    dated(line).Some? && dated(line).value < cutoff
  }

  lemma {:induction false} LastNLeavesAsked(last: nat, cutoff: int, dated: Dating, text: Text)
    requires last > 0
    ensures LeavesAsked(last, cutoff, dated, text, Rotated(LastN(last), dated, text))
  {
    if AllStamped(dated, Lines(text)) {
      NewestAreKept(last, dated, Lines(text));
    }
  }

  lemma {:induction false} NewestAreKept(last: nat, dated: Dating, lines: seq<Text>)
    requires last > 0 && AllStamped(dated, lines)
    ensures Kept(LastN(last), dated, lines) == if |lines| <= last then lines else lines[|lines| - last..]
  {
    LastNOfCleanLog(last, dated, lines);
  }

  lemma {:induction false} SinceLeavesAsked(cutoff: int, dated: Dating, text: Text)
    ensures LeavesAsked(0, cutoff, dated, text, Rotated(Since(cutoff), dated, text))
  {
    var lines := Lines(text);
    var k := KeepFrom(Since(cutoff), dated, lines, |lines|);
    forall i | k <= i < |lines|
      ensures !IsOlder(dated, lines[i], cutoff)
    {
      assert !StopsAt(Since(cutoff), dated, lines, i);
    }
    assert k > 0 ==> StopsAt(Since(cutoff), dated, lines, k - 1);
  }

  lemma {:induction false} TerminatedHasTail(policy: Policy, dated: Dating, text: Text)
    requires Terminated(text)
    ensures TailAligned(policy, dated, text, Lines(text))
  {
    AlignedIffTerminated(text);
    AlignedThroughout(text, KeepFrom(policy, dated, Lines(text), |Lines(text)|));
  }

  /** The file after a rotation that an I/O error interrupted: a front part of the kept text,
      and behind it the old bytes. */
  ghost predicate Interrupted(policy: Policy, dated: Dating, original: Text, content: Text) {
    exists done :: Copied(original, content, done) &&
      (TailAligned(policy, dated, original, Lines(original)) ==> done <= Rotated(policy, dated, original))
  }

  lemma {:induction false} NothingCopied(policy: Policy, dated: Dating, text: Text)
    ensures Interrupted(policy, dated, text, text)
  {
    assert Copied(text, text, []);
  }

  lemma {:induction false} EmptyIsRotated(policy: Policy, dated: Dating)
    ensures Rotated(policy, dated, []) == []
  {
    LinesWhole([]);
  }

  /** What the selected ranges are for a log whose tail is aligned. */
  lemma {:induction false} SelectedIsRotated(policy: Policy, dated: Dating, text: Text, ranges: seq<LineInfo>, result: RotateResult)
    requires Selected(policy, dated, text, Lines(text), ranges, result)
    ensures TailAligned(policy, dated, text, Lines(text)) ==>
              && Extract(text, ranges) == Rotated(policy, dated, text) && |Extract(text, ranges)| == result.numBytesKeep
              && (result.numBytesKeep == |text| ==> Extract(text, ranges) == text)
  {
    if TailAligned(policy, dated, text, Lines(text)) {
      TailIsRotated(policy, dated, text, ranges, result);
    }
  }

  lemma {:induction false} TailIsRotated(policy: Policy, dated: Dating, text: Text, ranges: seq<LineInfo>, result: RotateResult)
    requires Selected(policy, dated, text, Lines(text), ranges, result)
    requires TailAligned(policy, dated, text, Lines(text))
    ensures Extract(text, ranges) == Rotated(policy, dated, text) && |Extract(text, ranges)| == result.numBytesKeep
    ensures result.numBytesKeep == |text| ==> Extract(text, ranges) == text
  {
    var k := KeepFrom(policy, dated, Lines(text), |Lines(text)|);
    var lo := |text| - |Join(Lines(text)[k..])|;
    ExtractLength(text, ranges, lo);
    if result.numBytesKeep == |text| {
      DescendingFits(ranges, lo, |text|);
      ExtractEverything(text, ranges, 0);
    }
  }

  // ---------------------------------------------------------------- when the positions are right

  /** The range the scan computes for line `i`: it counts back from the end of the file,
      one byte of newline for every line. */
  function ComputedRange(text: Text, i: nat): LineInfo
    requires i < |Lines(text)|
  {
    LineInfo(|text| - |Join(Lines(text)[i..])|, |Lines(text)[i]| + 1)
  }

  predicate RangesAreTrue(text: Text, from: nat)
    requires from <= |Lines(text)|
  {
    forall i :: from <= i < |Lines(text)| ==>
      InBounds(text, ComputedRange(text, i)) && Slice(text, ComputedRange(text, i)) == Lines(text)[i] + [NEWLINE]
  }

  lemma {:induction false} TrueRangesTile(text: Text, from: nat)
    requires from <= |Lines(text)| && RangesAreTrue(text, from)
    ensures |Join(Lines(text)[from..])| <= |text|
    ensures text[|text| - |Join(Lines(text)[from..])|..] == Join(Lines(text)[from..])
    decreases |Lines(text)| - from
  {
    var lines := Lines(text);
    if from < |lines| {
      TrueRangesTile(text, from + 1);
      assert lines[from..][1..] == lines[from + 1..];
      var r := ComputedRange(text, from);
      TailSplits(text, r);
    }
  }

  /** The position arithmetic is right for every line exactly on aligned logs, that is, on
      those in which every line is terminated and no blank line comes after one. */
  lemma {:induction false} RangesTrueIffTerminated(text: Text)
    ensures RangesAreTrue(text, 0) <==> Terminated(text)
    ensures RangesAreTrue(text, 0) <==> Aligned(text)
  {
    AlignedIffTerminated(text);
    if RangesAreTrue(text, 0) {
      assert Lines(text)[0..] == Lines(text);
      TrueRangesTile(text, 0);
    }
    if Aligned(text) {
      forall i | 0 <= i < |Lines(text)|
        ensures InBounds(text, ComputedRange(text, i))
        ensures Slice(text, ComputedRange(text, i)) == Lines(text)[i] + [NEWLINE]
      {
        AlignedThroughout(text, i);
        ComputedRangeIsTrue(text, i);
      }
    }
  }

  lemma {:induction false} ComputedRangeIsTrue(text: Text, i: nat)
    requires i < |Lines(text)| && AlignedFrom(text, i)
    ensures InBounds(text, ComputedRange(text, i))
    ensures Slice(text, ComputedRange(text, i)) == Lines(text)[i] + [NEWLINE]
  {
    NewestLinesAt(text, i);
  }

  /** A last line without its newline is placed one byte too early. */
  lemma {:induction false} UnterminatedLineIsMisplaced(a: Byte)
    requires a != NEWLINE
    ensures Lines([a]) == [[a]] && ComputedRange([a], 0).pos == -1 && !Aligned([a])
  {
    LinesWhole([a]);
    assert [[a]][0..] == [[a]];
    assert Join([[a]]) == [a] + [NEWLINE] + Join([]);
  }

  /** A blank line in the middle puts the line before it one byte too late. */
  lemma {:induction false} InnerBlankMisplaces(a: Byte, b: Byte)
    requires a != NEWLINE && b != NEWLINE
    ensures var t := [a, NEWLINE, NEWLINE, b, NEWLINE];
            Lines(t) == [[a], [b]] && ComputedRange(t, 0).pos == 1 && !Terminated(t)
  {
    var t := [a, NEWLINE, NEWLINE, b, NEWLINE];
    assert t == [a] + [NEWLINE] + [NEWLINE, b, NEWLINE];
    LinesSplit([a], [NEWLINE, b, NEWLINE]);
    LeadingBlank([NEWLINE, b, NEWLINE]);
    assert [NEWLINE, b, NEWLINE][1..] == [b] + [NEWLINE] + [];
    LinesSplit([b], []);
    LinesWhole([a]);
    LinesWhole([b]);
    LinesWhole([]);
    assert [[a], [b]][0..] == [[a]] + ([[b]] + []);
    JoinFirst([a], [[b]] + []);
    JoinFirst([b], []);
    assert t[0] != NEWLINE && BlankAt(t, 1);
  }

  lemma {:induction false} RotatedLines(policy: Policy, dated: Dating, text: Text)
    ensures Lines(Rotated(policy, dated, text)) == Kept(policy, dated, Lines(text))
    ensures Aligned(Rotated(policy, dated, text))
  {
    LinesAreLines(text);
    KeptAreLines(policy, dated, Lines(text));
    LinesJoin(Kept(policy, dated, Lines(text)));
  }

  /** Rotating again by the same policy changes nothing - for an age limit always, and for
      "last N" if and only if the tail of the log was clean before the first rotation. */
  lemma {:induction false} RotationIsIdempotent(policy: Policy, dated: Dating, text: Text)
    requires policy.LastN? ==> policy.n > 0
    ensures var once := Rotated(policy, dated, text);
            Rotated(policy, dated, once) == once <==>
              (policy.LastN? ==> CleanTail(policy.n, dated, Lines(text)))
  {
    var once := Rotated(policy, dated, text);
    RotatedLines(policy, dated, text);
    RotatedLines(policy, dated, once);
    KeptAgain(policy, dated, Lines(text));
  }
}

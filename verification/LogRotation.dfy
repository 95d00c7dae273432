/** Rotation of an access log: scan backwards, record the byte ranges to keep,
    then compact the file in place. */
module LogRotation {
  import opened Common
  import opened LogLines
  import opened BackScanning
  import opened LogRetention
  import opened LogRanges

  /** `days` is only tested for being set: `cutoff` is the instant it stands for. */
  datatype Retention = Retention(days: nat, last: nat, keepSize: nat, cutoff: int)

  function PolicyOf(config: Retention): Policy {
    if config.last > 0 then LastN(config.last) else Since(config.cutoff)
  }

  /** Reads one range and writes it behind what is done. The write position does not
      pass the range, so what is read has not been overwritten. */
  method CopyOne(file: LogFile, line: LineInfo, writePos: nat, ghost original: Text, ghost done: Text) returns (ok: bool)
    requires Copied(original, file.content, done) && writePos == |done|
    requires done == [] || writePos <= line.pos
    requires line.pos + line.size <= |original|
    modifies file
    ensures Copied(original, file.content, if ok then done + Slice(original, line) else done)
    ensures ok ==> InBounds(original, line)
  {
    var r := file.ReadAt(line.size, line.pos);
    if !r.Data? {
      return false;
    }
    ghost var before := file.content;
    assert r.bytes == Slice(before, line) && |r.bytes| == line.size;
    ok := file.WriteAt(r.bytes, writePos);
    if ok {
      CopyAdvances(original, before, file.content, done, line);
    }
  }

  /** Copies the ranges to the front of the file, oldest first. Whatever fails on the way,
      the file is then a prefix of the kept text followed by its original bytes. */
  method CopyRanges(file: LogFile, ranges: seq<LineInfo>) returns (ok: bool, writePos: nat, ghost done: Text)
    requires ranges != []
    requires Descending(ranges, ranges[|ranges| - 1].pos, |file.content|)
    modifies file
    ensures Copied(old(file.content), file.content, done) && writePos == |done|
    ensures done <= Extract(old(file.content), ranges)
    ensures ok ==> done == Extract(old(file.content), ranges)
  {
    ghost var original, total := file.content, Extract(file.content, ranges);
    ghost var floor := ranges[|ranges| - 1].pos;
    writePos, done := 0, [];
    var left := ranges;
    while left != []
      invariant writePos == |done| && Copied(original, file.content, done)
      invariant done + Extract(original, left) == total
      invariant Descending(left, floor, |original|)
      invariant done == [] || writePos <= floor
      decreases |left|
    {
      var line := left[|left| - 1];
      left := left[..|left| - 1];
      DescendingFits(left, line.pos + line.size, |original|);
      ok := CopyOne(file, line, writePos, original, done);
      if !ok {
        return;
      }
      AppendAssociates(done, Slice(original, line), Extract(original, left));
      done := done + Slice(original, line);
      floor := line.pos + line.size;
      writePos := writePos + line.size;
    }
    ok := true;
  }

  /** One round of the scan loop, on the newest unread line. */
  method ConsiderLine(line: Text, policy: Policy, dated: Dating, sel: Selection,
                      ghost text: Text, ghost lines: seq<Text>, ghost aligned: bool, ghost j: nat)
    returns (stop: bool, sel': Selection)
    requires SelectionInv(policy, dated, text, lines, aligned, j, sel)
    requires j > 0 && line == lines[j - 1]
    requires lines == Lines(text) && aligned == TailAligned(policy, dated, text, lines)
    ensures stop ==> Selected(policy, dated, text, lines, sel'.ranges, sel'.result)
    ensures !stop ==> SelectionInv(policy, dated, text, lines, aligned, j - 1, sel')
  {
    var t := dated(line);
    if t.None? {
      SkippedKeepsInv(policy, dated, text, lines, aligned, j, sel);
      return false, Skipped(sel, |line| + 1);
    }
    stop := match policy
      case LastN(n) => sel.result.numLinesKeep - sel.result.numLinesInvalid == n
      case Since(cutoff) => t.value < cutoff;
    assert stop <==> StopsAt(policy, dated, lines, j - 1);
    if stop {
      NoStopExtends(policy, dated, lines, j);
      ScanStops(policy, dated, text, lines, j, sel);
      return true, Read(sel, |line| + 1);
    }
    IncludedKeepsInv(policy, dated, text, lines, aligned, j, sel);
    sel' := Included(sel, |line| + 1);
  }

  method StartScan(file: LogFile, chunkSize: nat) returns (s: BackScanner)
    ensures fresh(s) && s.Valid() && s.file == file && s.chunkSize == chunkSize && !s.failed
    ensures var lines := Lines(file.content); Lines(s.Pending()) == lines[..|lines|]
  {
    s := new BackScanner(file, |file.content|, chunkSize);
    assert s.Pending() == file.content;
  }

  /** Steps the scanner back by one line, or reports that none of the `j` unread lines is left. */
  method NextLine(s: BackScanner, ghost lines: seq<Text>, ghost j: nat) returns (more: bool)
    requires s.Valid() && !s.failed && s.chunkSize > 0
    requires j <= |lines| && Lines(s.Pending()) == lines[..j]
    modifies s
    ensures s.Valid() && (more ==> !s.failed)
    ensures more ==> j > 0 && s.line == lines[j - 1] && Lines(s.Pending()) == lines[..j - 1]
    ensures more ==> |s.Pending()| < |old(s.Pending())|
    ensures !more && !s.failed ==> j == 0
  {
    more := s.Scan();
    if more {
      NewestUnread(lines, j, Lines(s.Pending()), s.line);
    }
  }

  datatype Progress = GoesOn | Finished | Failed

  /** One line of the scan, or its end. */
  method ScanOne(s: BackScanner, policy: Policy, dated: Dating, sel: Selection, ghost text: Text, ghost lines: seq<Text>, ghost j: nat)
    returns (progress: Progress, sel': Selection)
    requires s.Valid() && !s.failed && s.chunkSize > 0
    requires lines == Lines(text) && j <= |lines| && Lines(s.Pending()) == lines[..j]
    requires SelectionInv(policy, dated, text, lines, TailAligned(policy, dated, text, lines), j, sel)
    modifies s
    ensures progress.Finished? ==> Selected(policy, dated, text, lines, sel'.ranges, sel'.result)
    ensures progress.GoesOn? ==>
              && j > 0 && SelectionInv(policy, dated, text, lines, TailAligned(policy, dated, text, lines), j - 1, sel')
              && s.Valid() && !s.failed && Lines(s.Pending()) == lines[..j - 1] && |s.Pending()| < |old(s.Pending())|
  {
    sel' := sel;
    var more := NextLine(s, lines, j);
    if more {
      var stop;
      stop, sel' := ConsiderLine(s.line, policy, dated, sel, text, lines, TailAligned(policy, dated, text, lines), j);
      progress := if stop then Finished else GoesOn;
    } else if s.failed {
      progress := Failed;
    } else {
      ScanCompletes(policy, dated, text, lines, sel);
      progress := Finished;
    }
  }

  /** The backward scan; the oldest `j` lines are still unread. */
  method SelectRanges(file: LogFile, policy: Policy, dated: Dating, chunkSize: nat)
    returns (ok: bool, ranges: seq<LineInfo>, result: RotateResult)
    requires chunkSize > 0
    ensures ok ==> Selected(policy, dated, file.content, Lines(file.content), ranges, result)
  {
    ghost var text := file.content;
    ghost var lines := Lines(text);
    var s := StartScan(file, chunkSize);
    var sel := Initial(|file.content|);
    ghost var j: nat := |lines|;
    ScanBegins(policy, dated, text, lines, TailAligned(policy, dated, text, lines));
    var progress := GoesOn;
    while progress.GoesOn?
      invariant fresh(s)
      invariant progress.GoesOn? ==>
                  && s.Valid() && s.file == file && s.chunkSize == chunkSize && !s.failed
                  && j <= |lines| && Lines(s.Pending()) == lines[..j]
      invariant progress.GoesOn? ==> SelectionInv(policy, dated, text, lines, TailAligned(policy, dated, text, lines), j, sel)
      invariant progress.Finished? ==> Selected(policy, dated, text, lines, sel.ranges, sel.result)
      decreases if progress.GoesOn? then |s.Pending()| + 1 else 0
    {
      progress, sel := ScanOne(s, policy, dated, sel, text, lines, j);
      if progress.GoesOn? {
        j := j - 1;
      }
    }
    return progress.Finished?, sel.ranges, sel.result;
  }

  const DEFAULT_CHUNK_SIZE: nat := 256 * 1024

  lemma {:induction false} RotatedIsAsked(config: Retention, dated: Dating, text: Text)
    requires Terminated(text)
    ensures TailAligned(PolicyOf(config), dated, text, Lines(text))
    ensures LeavesAsked(config.last, config.cutoff, dated, text, Rotated(PolicyOf(config), dated, text))
  {
    TerminatedHasTail(PolicyOf(config), dated, text);
    if config.last > 0 {
      LastNLeavesAsked(config.last, config.cutoff, dated, text);
    } else {
      SinceLeavesAsked(config.cutoff, dated, text);
    }
  }

  /** Rotation by age or by number of lines. Without an I/O error a log that is aligned from
      the stopping point on is left holding exactly the kept lines, in order. */
  method RotateByPolicy(file: LogFile, config: Retention, dated: Dating)
    returns (rotated: bool, ok: bool, result: RotateResult)
    modifies file
    ensures !rotated && ok ==> file.content == old(file.content)
    ensures config.last == 0 && config.days == 0 ==> ok && !rotated
    ensures |file.content| <= |old(file.content)|
    ensures !ok ==> Interrupted(PolicyOf(config), dated, old(file.content), file.content)
    ensures ok && (config.last > 0 || config.days > 0) ==>
              TailAligned(PolicyOf(config), dated, old(file.content), Lines(old(file.content))) ==>
              file.content == Rotated(PolicyOf(config), dated, old(file.content))
    ensures ok && old(file.content) != [] && (config.last > 0 || config.days > 0) ==>
              var text, lines := old(file.content), Lines(old(file.content));
              && Accounts(dated, text, lines, KeepFrom(PolicyOf(config), dated, lines, |lines|), result)
              && (TailAligned(PolicyOf(config), dated, text, lines) ==> result.numBytesKeep == |file.content|)
    ensures ok && (config.last > 0 || config.days > 0) && Terminated(old(file.content)) ==>
              LeavesAsked(config.last, config.cutoff, dated, old(file.content), file.content)
  {
    if Terminated(file.content) {
      RotatedIsAsked(config, dated, file.content);
    }
    result := NO_RESULT;
    if config.last == 0 && config.days == 0 {
      return false, true, result;
    }
    var policy := PolicyOf(config);
    ghost var original := file.content;
    if |file.content| == 0 {
      EmptyIsRotated(policy, dated);
      return false, true, result;
    }
    var scanned, ranges;
    scanned, ranges, result := SelectRanges(file, policy, dated, DEFAULT_CHUNK_SIZE);
    if !scanned {
      NothingCopied(policy, dated, original);
      return false, false, result;
    }
    SelectedIsRotated(policy, dated, original, ranges, result);
    if ranges == [] {
      ok := file.Truncate(0);
      NothingCopied(policy, dated, original);
      return true, ok, result;
    }
    if result.numBytesKeep == result.originalSize {
      return false, true, result;
    }
    var copied, writePos;
    ghost var done;
    copied, writePos, done := CopyRanges(file, ranges);
    if !copied {
      return false, false, result;
    }
    ok := file.Truncate(writePos);
    return ok, ok, result;
  }

  /** Rotation by size keeps the front of the file. */
  method RotateBySize(file: LogFile, config: Retention) returns (rotated: bool, ok: bool, result: RotateResult)
    modifies file
    ensures rotated ==> ok
    ensures ok ==> (rotated <==> config.keepSize < |old(file.content)|)
    ensures rotated ==> file.content == old(file.content)[..config.keepSize]
    ensures !rotated ==> file.content == old(file.content)
    ensures ok ==> result.numBytesKeep == |file.content| && result.originalSize == |old(file.content)|
  {
    var filesize := |file.content|;
    result := NO_RESULT.(originalSize := filesize);
    if config.keepSize >= filesize {
      return false, true, result.(numBytesKeep := filesize);
    }
    result := result.(numBytesKeep := config.keepSize);
    ok := file.Truncate(config.keepSize);
    rotated := ok;
  }

  method Rotate(file: LogFile, config: Retention, dated: Dating)
    returns (rotated: bool, ok: bool, result: RotateResult)
    modifies file
    ensures ok && config.keepSize > 0 ==>
              file.content == if config.keepSize < |old(file.content)| then old(file.content)[..config.keepSize]
                              else old(file.content)
    ensures ok && config.keepSize == 0 && (config.last > 0 || config.days > 0) ==>
              TailAligned(PolicyOf(config), dated, old(file.content), Lines(old(file.content))) ==>
              file.content == Rotated(PolicyOf(config), dated, old(file.content))
    ensures ok && config.keepSize == 0 && (config.last > 0 || config.days > 0) && Terminated(old(file.content)) ==>
              LeavesAsked(config.last, config.cutoff, dated, old(file.content), file.content)
    ensures ok && !rotated ==> file.content == old(file.content)
  {
    if config.keepSize > 0 {
      rotated, ok, result := RotateBySize(file, config);
    } else {
      rotated, ok, result := RotateByPolicy(file, config, dated);
    }
  }
}

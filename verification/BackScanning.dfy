/** A log file and the scanner that reads it backwards, one line at a time,
    through a buffer that is refilled in chunks of a fixed size. */
module BackScanning {
  import opened LogLines

  datatype ReadResult = Data(bytes: Text) | EndOfFile | ReadFailed

  class LogFile {
    var content: Text

    constructor (content: Text)
      ensures this.content == content
    {
      this.content := content;
    }

    /** Any read may fail; a successful one returns exactly the bytes asked for. */
    method ReadAt(n: nat, pos: int) returns (r: ReadResult)
      ensures r.Data? ==> 0 <= pos && pos + n <= |content| && r.bytes == content[pos..pos + n]
      ensures r.EndOfFile? ==> 0 <= pos && |content| < pos + n
    {
      if * {
        return ReadFailed;
      }
      if pos < 0 {
        return ReadFailed;
      }
      if |content| < pos + n {
        return EndOfFile;
      }
      return Data(content[pos..pos + n]);
    }

    /** Overwrites in place, padding with zero bytes when starting past the end.
        A write that fails is taken to change nothing. */
    method WriteAt(bytes: Text, pos: nat) returns (ok: bool)
      modifies this
      ensures !ok ==> content == old(content)
      ensures ok && pos + |bytes| <= |old(content)| ==>
                content == old(content)[..pos] + bytes + old(content)[pos + |bytes|..]
    {
      if * {
        return false;
      }
      var padding: Text := if pos <= |content| then [] else seq(pos - |content|, _ => 0);
      var padded := content + padding;
      content := padded[..pos] + bytes + (if pos + |bytes| <= |padded| then padded[pos + |bytes|..] else []);
      return true;
    }

    method Truncate(size: nat) returns (ok: bool)
      modifies this
      ensures !ok ==> content == old(content)
      ensures ok && size <= |old(content)| ==> content == old(content)[..size]
    {
      if * {
        return false;
      }
      content := if size <= |content| then content[..size] else content + seq(size - |content|, _ => 0);
      return true;
    }
  }

  function LastNewline(t: Text): (i: int)
    ensures -1 <= i < |t|
    ensures i >= 0 ==> t[i] == NEWLINE
    ensures NEWLINE !in t[i + 1..]
  {
    if t == [] then -1
    else if t[|t| - 1] == NEWLINE then |t| - 1
    else LastNewline(t[..|t| - 1])
  }

  function Reversed<T>(s: seq<T>): seq<T> {
    if s == [] then [] else Reversed(s[1..]) + [s[0]]
  }

  lemma {:induction false} ReversedAppend<T>(s: seq<T>, x: T)
    ensures Reversed(s + [x]) == [x] + Reversed(s)
  {
    if s != [] {
      assert (s + [x])[1..] == s[1..] + [x];
      ReversedAppend(s[1..], x);
    }
  }

  /** Cutting a text at its last newline cuts off its last segment. */
  lemma {:induction false} CutAtLastNewline(t: Text, i: nat)
    requires i < |t| && t[i] == NEWLINE && NEWLINE !in t[i + 1..]
    ensures Lines(t) == Lines(t[..i]) + (if i + 1 == |t| then [] else [t[i + 1..]])
  {
    assert t == t[..i] + [NEWLINE] + t[i + 1..];
    LinesSplit(t[..i], t[i + 1..]);
    LinesWhole(t[i + 1..]);
  }

  class BackScanner {
    const file: LogFile
    const size: nat
    const chunkSize: nat
    var offset: nat
    var chunk: Text
    var line: Text
    var failed: bool

    /** The part of the file that has not been returned yet. */
    ghost function Pending(): Text
      reads this, file
      requires offset <= |file.content|
    {
      file.content[..offset] + chunk
    }

    ghost predicate Valid()
      reads this, file
    {
      offset <= size <= |file.content|
    }

    constructor (file: LogFile, size: nat, chunkSize: nat)
      requires size <= |file.content|
      ensures Valid() && this.file == file && this.size == size && this.chunkSize == chunkSize
      ensures !failed && Pending() == file.content[..size]
    {
      this.file := file;
      this.size := size;
      this.chunkSize := chunkSize;
      offset, chunk, line, failed := size, [], [], false;
    }

    /** Cuts the buffer at its last newline, if it has one. */
    method CutLine() returns (found: bool)
      requires Valid()
      modifies this`line, this`chunk
      ensures found <==> NEWLINE in old(chunk)
      ensures !found ==> chunk == old(chunk)
      ensures found ==> |chunk| < |old(chunk)| && NEWLINE !in line
      ensures found ==> Lines(old(Pending())) == Lines(Pending()) + (if line == [] then [] else [line])
    {
      var idx := LastNewline(chunk);
      if idx < 0 {
        return false;
      }
      assert chunk[idx] == NEWLINE;
      ghost var before := Pending();
      assert before[offset + idx + 1..] == chunk[idx + 1..];
      CutAtLastNewline(before, offset + idx);
      line, chunk := chunk[idx + 1..], chunk[..idx];
      assert before[..offset + idx] == Pending();
      return true;
    }

    /** Prepends the chunk that precedes the buffer in the file. */
    method ReadChunk() returns (ok: bool)
      requires Valid() && offset > 0 && !failed
      modifies this`offset, this`chunk, this`failed
      ensures Valid() && Pending() == old(Pending())
      ensures ok ==> !failed && offset < old(offset)
      ensures !ok ==> failed || chunkSize == 0
    {
      var newOffset := if offset < chunkSize then 0 else offset - chunkSize;
      var r := file.ReadAt(offset - newOffset, newOffset);
      if !r.Data? {
        failed := r.ReadFailed?;
        return false;
      } else if |r.bytes| == 0 {
        return false;
      }
      assert file.content[..offset] == file.content[..newOffset] + r.bytes;
      chunk := r.bytes + chunk;
      offset := newOffset;
      return true;
    }

    /** Returns the last pending line, whatever the chunk size; gives up only when
        nothing is left, a read failed, or there is no buffer to read into. */
    method Scan() returns (more: bool)
      requires Valid()
      modifies this
      ensures Valid()
      ensures old(failed) ==> !more && failed && Pending() == old(Pending())
      ensures more ==> !failed && IsLine(line)
      ensures more ==> Lines(old(Pending())) == Lines(Pending()) + [line]
      ensures more ==> |Pending()| < |old(Pending())|
      ensures !more ==> Lines(Pending()) == Lines(old(Pending()))
      ensures !more && !failed && chunkSize > 0 ==> Pending() == []
    {
      if failed {
        return false;
      }
      while true
        invariant Valid() && !failed
        invariant |Pending()| <= |old(Pending())|
        invariant Lines(Pending()) == Lines(old(Pending()))
        decreases offset, |chunk|
      {
        var found := CutLine();
        if found {
          if |line| > 0 {
            return true;
          }
          continue;
        }
        while true
          invariant Valid() && !failed
          invariant NEWLINE !in chunk
          invariant |Pending()| <= |old(Pending())|
          invariant Lines(Pending()) == Lines(old(Pending()))
          decreases offset
        {
          if offset <= 0 {
            assert Pending() == chunk;
            LinesWhole(chunk);
            if |chunk| > 0 {
              line, chunk := chunk, [];
              assert Pending() == [];
              return true;
            }
            return false;
          }
          var read := ReadChunk();
          if !read {
            return false;
          }
          found := CutLine();
          if found {
            if |line| > 0 {
              return true;
            }
            break;
          }
        }
      }
    }

    method Reset()
      requires Valid()
      modifies this
      ensures Valid() && !failed && Pending() == file.content[..size]
    {
      offset, chunk, line, failed := size, [], [], false;
    }
  }

  /** The usual client loop: collects every line, newest first. For every content
      and every chunk size the outcome is the same list of lines. */
  method ScanAll(file: LogFile, chunkSize: nat) returns (newestFirst: seq<Text>, failed: bool)
    ensures !failed && chunkSize > 0 ==> Reversed(newestFirst) == Lines(file.content)
    ensures |newestFirst| <= |Lines(file.content)|
    ensures Reversed(newestFirst) == Lines(file.content)[|Lines(file.content)| - |newestFirst|..]
  {
    var s := new BackScanner(file, |file.content|, chunkSize);
    ghost var all := Lines(file.content);
    ghost var older := all;
    assert s.Pending() == file.content;
    newestFirst := [];
    while true
      invariant fresh(s) && s.Valid() && s.file == file && s.chunkSize == chunkSize
      invariant Lines(s.Pending()) == older
      invariant all == older + Reversed(newestFirst) && |Reversed(newestFirst)| == |newestFirst|
      decreases |s.Pending()|
    {
      var more := s.Scan();
      if !more {
        break;
      }
      older := Lines(s.Pending());
      ReversedAppend(newestFirst, s.line);
      newestFirst := newestFirst + [s.line];
    }
    failed := s.failed;
    assert !failed && chunkSize > 0 ==> older == [];
  }
}

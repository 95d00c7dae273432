/** What a retention policy keeps, as a function of the lines of the log alone. */
module LogRetention {
  import opened Common
  import opened LogLines

  datatype Policy = LastN(n: nat) | Since(cutoff: int)

  /** How a line is dated; None is a line without a usable time stamp. */
  type Dating = Text -> Option<int>

  function StampedLines(dated: Dating, lines: seq<Text>): seq<Text> {
    if lines == [] then []
    else (if dated(lines[0]).Some? then [lines[0]] else []) + StampedLines(dated, lines[1..])
  }

  function NumStamped(dated: Dating, lines: seq<Text>): (n: nat)
    ensures n <= |lines|
  {
    StampedMembers(dated, lines);
    |StampedLines(dated, lines)|
  }

  /** Whether scanning backwards from the end stops at line `i`, leaving it and
      everything before it out. */
  predicate StopsAt(policy: Policy, dated: Dating, lines: seq<Text>, i: nat)
    requires i < |lines|
  {
    && dated(lines[i]).Some?
    && match policy
       case LastN(n) =>
         var newer := lines[i + 1..];
         NumStamped(dated, newer) - (|newer| - NumStamped(dated, newer)) == n
       case Since(cutoff) => dated(lines[i]).value < cutoff
  }

  /** The first line after the newest stopping point. */
  function KeepFrom(policy: Policy, dated: Dating, lines: seq<Text>, upTo: nat): (k: nat)
    requires upTo <= |lines|
    ensures k <= upTo
    ensures k == 0 || StopsAt(policy, dated, lines, k - 1)
    ensures forall i :: k <= i < upTo ==> !StopsAt(policy, dated, lines, i)
  {
    if upTo == 0 then 0
    else if StopsAt(policy, dated, lines, upTo - 1) then upTo
    else KeepFrom(policy, dated, lines, upTo - 1)
  }

  ghost predicate NoStopFrom(policy: Policy, dated: Dating, lines: seq<Text>, j: nat) {
    forall i :: j <= i < |lines| ==> !StopsAt(policy, dated, lines, i)
  }

  lemma {:induction false} NoStopExtends(policy: Policy, dated: Dating, lines: seq<Text>, j: nat)
    requires 0 < j <= |lines| && NoStopFrom(policy, dated, lines, j)
    ensures !StopsAt(policy, dated, lines, j - 1) ==> NoStopFrom(policy, dated, lines, j - 1)
    ensures StopsAt(policy, dated, lines, j - 1) ==> j == KeepFrom(policy, dated, lines, |lines|)
  {}

  /** What retention keeps: the stamped lines after the newest stopping point. */
  function Kept(policy: Policy, dated: Dating, lines: seq<Text>): seq<Text> {
    StampedLines(dated, lines[KeepFrom(policy, dated, lines, |lines|)..])
  }

  lemma {:induction false} StampedConcat(dated: Dating, l1: seq<Text>, l2: seq<Text>)
    ensures StampedLines(dated, l1 + l2) == StampedLines(dated, l1) + StampedLines(dated, l2)
  {
    if l1 == [] {
      assert l1 + l2 == l2;
    } else {
      assert (l1 + l2)[1..] == l1[1..] + l2;
      AppendAssociates(if dated(l1[0]).Some? then [l1[0]] else [], StampedLines(dated, l1[1..]), StampedLines(dated, l2));
      StampedConcat(dated, l1[1..], l2);
    }
  }

  lemma {:induction false} StampedMembers(dated: Dating, lines: seq<Text>)
    ensures |StampedLines(dated, lines)| <= |lines|
    ensures forall i :: 0 <= i < |StampedLines(dated, lines)| ==>
              StampedLines(dated, lines)[i] in lines && dated(StampedLines(dated, lines)[i]).Some?
    ensures |StampedLines(dated, lines)| == |lines| ==> StampedLines(dated, lines) == lines
  {
    if lines != [] {
      StampedMembers(dated, lines[1..]);
    }
  }

  predicate AllStamped(dated: Dating, lines: seq<Text>) {
    forall i :: 0 <= i < |lines| ==> dated(lines[i]).Some?
  }

  lemma {:induction false} StampedIsIdentity(dated: Dating, lines: seq<Text>)
    requires AllStamped(dated, lines)
    ensures StampedLines(dated, lines) == lines
  {
    if lines != [] {
      StampedIsIdentity(dated, lines[1..]);
    }
  }

  lemma {:induction false} StampedSplit(dated: Dating, lines: seq<Text>, k: nat)
    requires k <= |lines|
    ensures StampedLines(dated, lines) == StampedLines(dated, lines[..k]) + StampedLines(dated, lines[k..])
  {
    var a, b := lines[..k], lines[k..];
    StampedConcat(dated, a, b);
    assert a + b == lines;
  }

  /** "last N" never drops one of the newest N stamped lines. */
  lemma {:induction false} LastNKeepsEnough(n: nat, dated: Dating, lines: seq<Text>)
    requires n > 0
    ensures var kept := Kept(LastN(n), dated, lines);
            var stamped := StampedLines(dated, lines);
            && |kept| <= |stamped| && kept == stamped[|stamped| - |kept|..]
            && (|stamped| <= n ==> kept == stamped)
            && (|stamped| > n ==> |kept| >= n)
  {
    var k := KeepFrom(LastN(n), dated, lines, |lines|);
    StampedSplit(dated, lines, k);
    StampedMembers(dated, lines[k..]);
    if k == 0 {
      assert lines[..k] == [] && lines[k..] == lines;
    } else {
      StampedContains(dated, lines[..k], k - 1);
    }
  }

  /** The newest lines are clean enough for "last N" to be exact: there are at most N
      stamped lines, or the N + 1 newest lines are all stamped. */
  predicate CleanTail(n: nat, dated: Dating, lines: seq<Text>) {
    || NumStamped(dated, lines) <= n
    || (n < |lines| && AllStamped(dated, lines[|lines| - n - 1..]))
  }

  lemma {:induction false} ExactNeedsCleanTail(n: nat, dated: Dating, lines: seq<Text>)
    requires n < NumStamped(dated, lines) && |Kept(LastN(n), dated, lines)| == n
    ensures CleanTail(n, dated, lines)
  {
    // The scan stopped, and the stop test at line k - 1 saw n stamped lines and no others.
    var k := KeepFrom(LastN(n), dated, lines, |lines|);
    assert lines[0..] == lines;
    assert k > 0 && |lines| - k == n;
    StampedMembers(dated, lines[k..]);
    assert AllStamped(dated, lines[k..]);
    assert lines[k - 1..][1..] == lines[k..];
  }

  lemma {:induction false} CleanTailIsExact(n: nat, dated: Dating, lines: seq<Text>)
    requires n < |lines| && AllStamped(dated, lines[|lines| - n - 1..])
    ensures |Kept(LastN(n), dated, lines)| <= n
  {
    var k := KeepFrom(LastN(n), dated, lines, |lines|);
    var i := |lines| - n - 1;
    assert lines[i + 1..] == lines[i..][1..];
    StampedIsIdentity(dated, lines[i + 1..]);
    assert lines[i] == lines[i..][0];
    assert StopsAt(LastN(n), dated, lines, i);
    StampedMembers(dated, lines[k..]);
  }

  /** "last N" keeps exactly min(N, stamped) lines if and only if the tail is clean. */
  lemma {:induction false} LastNExactIffCleanTail(n: nat, dated: Dating, lines: seq<Text>)
    requires n > 0
    ensures var total := NumStamped(dated, lines);
            |Kept(LastN(n), dated, lines)| == (if total < n then total else n) <==> CleanTail(n, dated, lines)
  {
    LastNKeepsEnough(n, dated, lines);
    if NumStamped(dated, lines) > n {
      if |Kept(LastN(n), dated, lines)| == n {
        ExactNeedsCleanTail(n, dated, lines);
      } else if CleanTail(n, dated, lines) {
        CleanTailIsExact(n, dated, lines);
      }
    }
  }

  /** On a log whose lines are all stamped, "last N" keeps exactly the newest N lines. */
  lemma {:induction false} LastNOfCleanLog(n: nat, dated: Dating, lines: seq<Text>)
    requires n > 0 && AllStamped(dated, lines)
    ensures Kept(LastN(n), dated, lines) == if |lines| <= n then lines else lines[|lines| - n..]
  {
    StampedIsIdentity(dated, lines);
    LastNKeepsEnough(n, dated, lines);
    LastNExactIffCleanTail(n, dated, lines);
  }

  /** An unstamped line between stamped ones makes "last 1" keep two lines. */
  lemma {:induction false} LastOneCanKeepTwo(dated: Dating, a: Text, x: Text, b: Text)
    requires dated(a).Some? && dated(x).None? && dated(b).Some?
    ensures Kept(LastN(1), dated, [a, x, b]) == [a, b]
  {
    var lines := [a, x, b];
    assert StampedLines(dated, []) == [];
    assert StampedLines(dated, [b]) == [b];
    assert StampedLines(dated, [x, b]) == [b] by { assert [x, b][1..] == [b]; }
    assert StampedLines(dated, lines) == [a, b] by { assert lines[1..] == [x, b]; }
    assert lines[1..] == [x, b] && lines[2..] == [b] && lines[3..] == [];
    assert !StopsAt(LastN(1), dated, lines, 0) && !StopsAt(LastN(1), dated, lines, 1) && !StopsAt(LastN(1), dated, lines, 2);
    assert lines[0..] == lines;
  }

  /** An age limit keeps no line older than the cutoff, and drops every stamped line
      only if it is followed by, or is itself, one older than the cutoff. */
  lemma {:induction false} SinceKeepsRecent(cutoff: int, dated: Dating, lines: seq<Text>)
    ensures forall line :: line in Kept(Since(cutoff), dated, lines) ==>
              dated(line).Some? && dated(line).value >= cutoff
    ensures forall i :: 0 <= i < |lines| && dated(lines[i]).Some? && lines[i] !in Kept(Since(cutoff), dated, lines) ==>
              exists m :: i <= m < |lines| && dated(lines[m]).Some? && dated(lines[m]).value < cutoff
  {
    var k := KeepFrom(Since(cutoff), dated, lines, |lines|);
    StampedMembers(dated, lines[k..]);
    forall line | line in Kept(Since(cutoff), dated, lines)
      ensures dated(line).Some? && dated(line).value >= cutoff
    {
      var i :| 0 <= i < |lines[k..]| && lines[k..][i] == line;
      assert !StopsAt(Since(cutoff), dated, lines, k + i);
    }
    forall i | 0 <= i < |lines| && dated(lines[i]).Some? && lines[i] !in Kept(Since(cutoff), dated, lines)
      ensures exists m :: i <= m < |lines| && dated(lines[m]).Some? && dated(lines[m]).value < cutoff
    {
      if i >= k {
        StampedContains(dated, lines[k..], i - k);
        assert false;
      }
      assert StopsAt(Since(cutoff), dated, lines, k - 1);
    }
  }

  lemma {:induction false} StampedContains(dated: Dating, lines: seq<Text>, i: nat)
    requires i < |lines| && dated(lines[i]).Some?
    ensures lines[i] in StampedLines(dated, lines)
  {
    if i > 0 {
      StampedContains(dated, lines[1..], i - 1);
    }
  }

  lemma {:induction false} KeptAreLines(policy: Policy, dated: Dating, lines: seq<Text>)
    requires AllLines(lines)
    ensures AllLines(Kept(policy, dated, lines))
  {
    StampedMembers(dated, lines[KeepFrom(policy, dated, lines, |lines|)..]);
  }

  lemma {:induction false} LastNAgain(n: nat, dated: Dating, lines: seq<Text>)
    requires n > 0 && AllStamped(dated, lines)
    ensures Kept(LastN(n), dated, lines) == lines <==> |lines| <= n
  {
    StampedIsIdentity(dated, lines);
    LastNKeepsEnough(n, dated, lines);
    if |lines| > n {
      CleanTailIsExact(n, dated, lines);
    }
  }

  lemma {:induction false} SinceAgain(cutoff: int, dated: Dating, lines: seq<Text>)
    requires AllStamped(dated, lines)
    requires forall line :: line in lines ==> dated(line).value >= cutoff
    ensures Kept(Since(cutoff), dated, lines) == lines
  {
    var k := KeepFrom(Since(cutoff), dated, lines, |lines|);
    assert lines[0..] == lines;
    StampedIsIdentity(dated, lines);
  }

  /** Applying a policy to what it kept drops nothing more: always for an age limit, and
      for "last N" if and only if the tail of the lines was clean. */
  lemma {:induction false} KeptAgain(policy: Policy, dated: Dating, lines: seq<Text>)
    requires policy.LastN? ==> policy.n > 0
    ensures var kept := Kept(policy, dated, lines);
            Kept(policy, dated, kept) == kept <==> (policy.LastN? ==> CleanTail(policy.n, dated, lines))
  {
    StampedMembers(dated, lines[KeepFrom(policy, dated, lines, |lines|)..]);
    match policy {
      case LastN(n) =>
        LastNAgain(n, dated, Kept(policy, dated, lines));
        LastNKeepsEnough(n, dated, lines);
        LastNExactIffCleanTail(n, dated, lines);
      case Since(cutoff) =>
        SinceKeepsRecent(cutoff, dated, lines);
        SinceAgain(cutoff, dated, Kept(policy, dated, lines));
    }
  }
}

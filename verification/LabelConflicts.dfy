/** Labels whose paths continue one another: what setting them does to a tree, and why the
    order in which a map is visited then shows. */
module LabelConflicts {
  import opened Common
  import opened DockerLabels

  predicate ProperPrefix(s: Path, path: Path) {
    |s| < |path| && s <= path
  }

  /** A non-empty value stands in the way of the path. */
  ghost predicate Blocked(n: Node, path: Path) {
    exists s :: ProperPrefix(s, path) && Find(n, s).Some? && Find(n, s).value != ""
  }

  lemma {:induction false} PrefixBelow(k: string, s: Path, path: Path)
    requires path != []
    ensures ProperPrefix([k] + s, path) <==> path[0] == k && ProperPrefix(s, path[1..])
  {
    assert ([k] + s)[1..] == s;
    if path[0] == k && ProperPrefix(s, path[1..]) {
      assert path == [k] + path[1..];
      assert path[..|s| + 1] == [k] + s;
    }
    if ProperPrefix([k] + s, path) {
      assert path[1..][..|s|] == path[..|s| + 1][1..];
    }
  }

  /** Setting a path is an error exactly if it is blocked. */
  lemma {:induction false} InsertFailsIffBlocked(n: Node, path: Path, value: string)
    requires n.Branch? && path != []
    ensures Insert(n, path, value).errors > 0 <==> Blocked(n, path)
    decreases |path|
  {
    var m, k := n.children, path[0];
    if |path| == 1 {
      assert forall s :: ProperPrefix(s, path) ==> s == [];
    } else if k in m && m[k].Leaf? && m[k].value != "" {
      FindBelow(n, k, []);
      PrefixBelow(k, [], path);
      assert Find(n, [k] + []).value != "";
    } else {
      var child := if k in m && m[k].Branch? then m[k] else EMPTY;
      InsertFailsIffBlocked(child, path[1..], value);
      BlockedBelow(n, path, child);
    }
  }

  lemma {:induction false} BlockedBelow(n: Node, path: Path, child: Node)
    requires n.Branch? && |path| > 1 && child.Branch?
    requires var k := path[0];
             if k in n.children then child == n.children[k] || (n.children[k] == Leaf("") && child == EMPTY) else child == EMPTY
    ensures Blocked(n, path) <==> Blocked(child, path[1..])
  {
    var k := path[0];
    if Blocked(n, path) {
      var s :| ProperPrefix(s, path) && Find(n, s).Some? && Find(n, s).value != "";
      assert s == [k] + s[1..];
      PrefixBelow(k, s[1..], path);
      assert Find(child, s[1..]) == Find(n, s);
    }
    if Blocked(child, path[1..]) {
      var s :| ProperPrefix(s, path[1..]) && Find(child, s).Some? && Find(child, s).value != "";
      PrefixBelow(k, s, path);
      FindBelow(n, k, s);
    }
  }

  /** What a tree holds once a path was set without error: the value at the path, nothing
      above or below it, and everything else as before. */
  function FoundAfter(n: Node, path: Path, value: string, p: Path): Option<string> {
    if p == path then Some(value)
    else if p <= path || path <= p then None
    else Find(n, p)
  }

  lemma {:induction false} InsertEffect(n: Node, path: Path, value: string, p: Path)
    requires n.Branch? && path != [] && Insert(n, path, value).errors == 0
    ensures Find(Insert(n, path, value).root, p) == FoundAfter(n, path, value, p)
    decreases |path|
  {
    var m, k := n.children, path[0];
    if p != [] && p[0] == k {
      PrefixTail(p, path);
      PrefixTail(path, p);
      if |path| > 1 {
        var child := if k in m && m[k].Branch? then m[k] else EMPTY;
        InsertEffect(child, path[1..], value, p[1..]);
        FoundAfterBelow(n, path, value, p, child);
        assert Find(Insert(n, path, value).root, p) == Find(Insert(child, path[1..], value).root, p[1..]);
      }
    }
  }

  lemma {:induction false} FoundAfterBelow(n: Node, path: Path, value: string, p: Path, child: Node)
    requires n.Branch? && path != [] && p != [] && p[0] == path[0]
    requires var m, k := n.children, path[0];
             child == if k in m && m[k].Branch? then m[k] else EMPTY
    ensures FoundAfter(n, path, value, p) == FoundAfter(child, path[1..], value, p[1..])
  {
    PrefixTail(p, path);
    PrefixTail(path, p);
    if !(p <= path) && !(path <= p) {
      assert p[1..] != [];
      assert Find(n, p) == Find(child, p[1..]);
    }
  }

  lemma {:induction false} PrefixTail(a: Path, b: Path)
    requires a != [] && b != [] && a[0] == b[0]
    ensures a <= b <==> a[1..] <= b[1..]
    ensures a == b <==> a[1..] == b[1..]
  {
    assert a == [a[0]] + a[1..] && b == [b[0]] + b[1..];
    if a[1..] <= b[1..] {
      assert forall i :: 1 <= i < |a| ==> a[i] == a[1..][i - 1] && b[i] == b[1..][i - 1];
    }
    if a <= b {
      assert forall i :: 0 <= i < |a[1..]| ==> a[1..][i] == a[i + 1] && b[1..][i] == b[i + 1];
    }
  }

  lemma {:induction false} ApartIsUntouched(n: Node, path: Path, value: string, p: Path)
    requires Apart(p, path) && p != path
    ensures FoundAfter(n, path, value, p) == Find(n, p)
  {}

  /** `a` is `b` with some keys left out. */
  predicate LeavesOut(a: Path, b: Path) {
    if b == [] then a == []
    else (a != [] && a[0] == b[0] && LeavesOut(a[1..], b[1..])) || LeavesOut(a, b[1..])
  }

  /** What an error means: each one leaves out a key on the way, at which a non-empty value
      stands, and the value is set at the path of the other keys, without error. */
  lemma {:induction false} ErrorsLeaveOutKeys(n: Node, path: Path, value: string) returns (shorter: Path)
    requires n.Branch? && path != []
    ensures shorter != [] && LeavesOut(shorter, path) && shorter[|shorter| - 1] == path[|path| - 1]
    ensures Insert(n, path, value).errors == |path| - |shorter|
    ensures Insert(n, shorter, value) == Nested(Insert(n, path, value).root, 0)
    decreases |path|
  {
    var m, k := n.children, path[0];
    if |path| == 1 {
      shorter := path;
      assert path[1..] == [] && LeavesOut([], []);
    } else if k in m && m[k].Leaf? && m[k].value != "" {
      shorter := ErrorsLeaveOutKeys(n, path[1..], value);
    } else {
      var child := if k in m && m[k].Branch? then m[k] else EMPTY;
      var rest := ErrorsLeaveOutKeys(child, path[1..], value);
      shorter := [k] + rest;
      assert shorter[1..] == rest;
    }
  }

  // ---------------------------------------------------------------- two labels

  function SetBoth(n: Node, p: Path, v: string, q: Path, w: string): Nested
    requires n.Branch? && p != [] && q != []
  {
    var first := Insert(n, p, v);
    var second := Insert(first.root, q, w);
    Nested(second.root, first.errors + second.errors)
  }

  /** A path that continues another: the shorter one survives exactly if it comes last. */
  lemma {:induction false} ConflictDependsOnOrder(n: Node, p: Path, v: string, q: Path, w: string)
    requires n.Branch? && p != [] && ProperPrefix(p, q) && !Blocked(n, p) && !Blocked(n, q)
    ensures SetBoth(n, q, w, p, v).errors == 0 && Find(SetBoth(n, q, w, p, v).root, p) == Some(v)
    ensures v != "" ==> SetBoth(n, p, v, q, w).errors > 0
    ensures v == "" ==> SetBoth(n, p, v, q, w).errors == 0 && Find(SetBoth(n, p, v, q, w).root, p) == None
  {
    InsertFailsIffBlocked(n, p, v);
    InsertFailsIffBlocked(n, q, w);
    var np, nq := Insert(n, p, v).root, Insert(n, q, w).root;
    InsertFailsIffBlocked(np, q, w);
    InsertFailsIffBlocked(nq, p, v);
    InsertEffect(n, p, v, p);
    forall s | ProperPrefix(s, p)
      ensures Find(nq, s).None? && ProperPrefix(s, q)
    {
      assert s <= q;
      InsertEffect(n, q, w, s);
    }
    assert !Blocked(nq, p);
    InsertEffect(nq, p, v, p);
    if v == "" {
      forall s | ProperPrefix(s, q) && Find(np, s).Some?
        ensures Find(np, s).value == ""
      {
        InsertEffect(n, p, v, s);
      }
      assert !Blocked(np, q);
      InsertEffect(np, q, w, p);
    }
  }

  lemma {:induction false} ApartCommute(n: Node, p: Path, v: string, q: Path, w: string)
    requires n.Branch? && NoEmptyBelow(n) && p != [] && q != [] && p != q && Fits(n, p) && Fits(n, q) && Apart(p, q)
    ensures SetBoth(n, p, v, q, w) == SetBoth(n, q, w, p, v)
  {
    InsertFits(n, p, v);
    InsertFits(n, q, w);
    var np, nq := Insert(n, p, v).root, Insert(n, q, w).root;
    assert Fits(np, q) && Fits(nq, p);
    InsertFits(np, q, w);
    InsertFits(nq, p, v);
    SameContents(SetBoth(n, p, v, q, w).root, SetBoth(n, q, w, p, v).root);
  }

  lemma {:induction false} FittingIsNotBlocked(n: Node, p: Path)
    requires Fits(n, p)
    ensures !Blocked(n, p)
  {}

  /** Two labels can be set in either order if and only if neither path continues the other. */
  lemma {:induction false} LabelsCommuteIffApart(n: Node, p: Path, v: string, q: Path, w: string)
    requires n.Branch? && NoEmptyBelow(n) && p != [] && q != [] && p != q && Fits(n, p) && Fits(n, q)
    ensures SetBoth(n, p, v, q, w) == SetBoth(n, q, w, p, v) <==> Apart(p, q)
  {
    FittingIsNotBlocked(n, p);
    FittingIsNotBlocked(n, q);
    if Apart(p, q) {
      ApartCommute(n, p, v, q, w);
    } else if p <= q {
      ConflictDependsOnOrder(n, p, v, q, w);
    } else {
      ConflictDependsOnOrder(n, q, w, p, v);
    }
  }

  // ---------------------------------------------------------------- any number of labels

  /** Labels of the namespace with proper paths. */
  ghost predicate Proper(labels: map<string, string>) {
    forall k :: k in labels ==> exists p :: GoodPath(p) && k == LabelOf(p)
  }

  function PathFrom(k: string): Path {
    SplitDot(k)[1..]
  }

  lemma {:induction false} PathOfLabel(p: Path)
    requires GoodPath(p)
    ensures PathFrom(LabelOf(p)) == p && SplitDot(LabelOf(p)) == [NS_PROXY] + p
  {
    SplitLabel(p);
    assert ([NS_PROXY] + p)[1..] == p;
  }

  lemma {:induction false} ProperLabel(labels: map<string, string>, k: string)
    requires Proper(labels) && k in labels
    ensures GoodPath(PathFrom(k)) && LabelOf(PathFrom(k)) == k
    ensures SplitDot(k)[0] == NS_PROXY && |SplitDot(k)| > 1
  {
    var p :| GoodPath(p) && k == LabelOf(p);
    PathOfLabel(p);
  }

  /** One more label of an order, set without error. */
  lemma {:induction false} ParseNext(labels: map<string, string>, order: seq<string>, s: Path)
    requires Proper(labels) && order != [] && forall i :: 0 <= i < |order| ==> order[i] in labels
    ensures var n := |order| - 1;
            var acc, path, value := Parse(labels, order[..n]), PathFrom(order[n]), labels[order[n]];
            && (Parse(labels, order).errors == 0 <==> acc.errors == 0 && !Blocked(acc.root, path))
            && (Parse(labels, order).errors == 0 ==> Find(Parse(labels, order).root, s) == FoundAfter(acc.root, path, value, s))
  {
    var n := |order| - 1;
    var acc, k := Parse(labels, order[..n]), order[n];
    ProperLabel(labels, k);
    InsertFailsIffBlocked(acc.root, PathFrom(k), labels[k]);
    if Insert(acc.root, PathFrom(k), labels[k]).errors == 0 {
      InsertEffect(acc.root, PathFrom(k), labels[k], s);
    }
  }

  predicate LongestFirst(order: seq<string>) {
    forall i, j :: 0 <= i < j < |order| ==> order[i] != order[j] && |PathFrom(order[i])| >= |PathFrom(order[j])|
  }

  /** No label's path leads up to that of `k`. */
  predicate Topmost(labels: map<string, string>, k: string) {
    forall l :: l in labels ==> !ProperPrefix(PathFrom(l), PathFrom(k))
  }

  ghost predicate FoundOnlyFrom(n: Node, order: seq<string>) {
    forall s :: Find(n, s).Some? ==> exists i :: 0 <= i < |order| && PathFrom(order[i]) == s
  }

  predicate AllIn(order: seq<string>, labels: map<string, string>) {
    forall i :: 0 <= i < |order| ==> order[i] in labels
  }

  lemma {:induction false} NothingInTheWay(n: Node, order: seq<string>, path: Path)
    requires FoundOnlyFrom(n, order) && forall i :: 0 <= i < |order| ==> |PathFrom(order[i])| >= |path|
    ensures !Blocked(n, path)
  {
    forall s | Find(n, s).Some?
      ensures !ProperPrefix(s, path)
    {
      var i :| 0 <= i < |order| && PathFrom(order[i]) == s;
    }
  }

  lemma {:induction false} FoundOnlyNext(before: Node, after: Node, order: seq<string>, value: string)
    requires order != [] && FoundOnlyFrom(before, order[..|order| - 1])
    requires forall s :: Find(after, s) == FoundAfter(before, PathFrom(order[|order| - 1]), value, s)
    ensures FoundOnlyFrom(after, order)
  {
    var n := |order| - 1;
    forall s | Find(after, s).Some?
      ensures exists i :: 0 <= i < |order| && PathFrom(order[i]) == s
    {
      if s == PathFrom(order[n]) {
        assert PathFrom(order[n]) == s;
      } else {
        var i :| 0 <= i < n && PathFrom(order[..n][i]) == s;
        assert PathFrom(order[i]) == s;
      }
    }
  }

  /** Longest first, no label is reported. */
  lemma {:induction false} LongestFirstIsClean(labels: map<string, string>, order: seq<string>)
    requires Proper(labels) && AllIn(order, labels) && LongestFirst(order)
    ensures Parse(labels, order).errors == 0 && FoundOnlyFrom(Parse(labels, order).root, order)
  {
    if order != [] {
      var n := |order| - 1;
      var acc, r := Parse(labels, order[..n]), Parse(labels, order);
      LongestFirstIsClean(labels, order[..n]);
      NothingInTheWay(acc.root, order[..n], PathFrom(order[n]));
      forall s: Path
        ensures r.errors == 0 && Find(r.root, s) == FoundAfter(acc.root, PathFrom(order[n]), labels[order[n]], s)
      {
        ParseNext(labels, order, s);
      }
      ParseNext(labels, order, []);
      FoundOnlyNext(acc.root, r.root, order, labels[order[n]]);
    }
  }

  /** Longest first, no label at the top is lost. */
  lemma {:induction false} LongestFirstKeepsTop(labels: map<string, string>, order: seq<string>, k: string)
    requires Proper(labels) && AllIn(order, labels) && LongestFirst(order)
    requires k in order && Topmost(labels, k)
    ensures Find(Parse(labels, order).root, PathFrom(k)) == Some(labels[k])
  {
    var n := |order| - 1;
    LongestFirstIsClean(labels, order);
    ParseNext(labels, order, PathFrom(k));
    if order[n] != k {
      var i :| 0 <= i < |order| && order[i] == k;
      assert order[..n][i] == k;
      LongestFirstKeepsTop(labels, order[..n], k);
      assert |PathFrom(order[i])| >= |PathFrom(order[n])|;
      OthersApart(labels, k, order[n]);
      ApartIsUntouched(Parse(labels, order[..n]).root, PathFrom(order[n]), labels[order[n]], PathFrom(k));
    }
  }

  lemma {:induction false} OthersApart(labels: map<string, string>, k: string, x: string)
    requires Proper(labels) && k in labels && x in labels && k != x && Topmost(labels, k)
    requires |PathFrom(k)| >= |PathFrom(x)|
    ensures Apart(PathFrom(k), PathFrom(x)) && PathFrom(k) != PathFrom(x)
  {
    ProperLabel(labels, k);
    ProperLabel(labels, x);
  }

  /** With the shorter of two conflicting labels first, an error is reported or it is lost. */
  lemma {:induction false} ShorterFirstLosesIt(labels: map<string, string>, order: seq<string>, k: string, l: string)
    requires Proper(labels) && AllIn(order, labels)
    requires (forall i, j :: 0 <= i < j < |order| ==> order[i] != order[j])
    requires order != [] && order[0] == k && l in order && ProperPrefix(PathFrom(k), PathFrom(l))
    ensures var r := Parse(labels, order); r.errors > 0 || Find(r.root, PathFrom(k)) == None
  {
    var n := |order| - 1;
    var x := order[n];
    ParseNext(labels, order, PathFrom(k));
    if x != l {
      var i :| 0 <= i < |order| && order[i] == l;
      assert l == order[..n][i];
      ShorterFirstLosesIt(labels, order[..n], k, l);
      ProperLabel(labels, k);
      ProperLabel(labels, x);
      assert order[0] != order[n];
    }
  }

  lemma {:induction false} Shortest(keys: set<string>) returns (k: string)
    requires keys != {}
    ensures k in keys && forall l :: l in keys ==> |PathFrom(k)| <= |PathFrom(l)|
    decreases |keys|
  {
    k :| k in keys;
    if keys != {k} {
      var other := Shortest(keys - {k});
      if |PathFrom(other)| < |PathFrom(k)| {
        k := other;
      }
    }
  }

  lemma {:induction false} SortedByLength(keys: set<string>) returns (order: seq<string>)
    ensures LongestFirst(order) && forall k :: k in order <==> k in keys
    decreases |keys|
  {
    if keys == {} {
      order := [];
    } else {
      var k := Shortest(keys);
      order := SortedByLength(keys - {k});
      assert forall i :: 0 <= i < |order| ==> order[i] in keys - {k};
      order := order + [k];
    }
  }

  /** Above any label that another one leads up to there is a topmost one. */
  lemma {:induction false} TopmostAbove(labels: map<string, string>, k: string, l: string) returns (top: string)
    requires k in labels && ProperPrefix(PathFrom(k), PathFrom(l))
    ensures top in labels && Topmost(labels, top) && ProperPrefix(PathFrom(top), PathFrom(l))
    decreases |PathFrom(k)|
  {
    if Topmost(labels, k) {
      top := k;
    } else {
      var k' :| k' in labels && ProperPrefix(PathFrom(k'), PathFrom(k));
      PrefixTransitive(PathFrom(k'), PathFrom(k), PathFrom(l));
      top := TopmostAbove(labels, k', l);
    }
  }

  lemma {:induction false} PrefixTransitive(a: Path, b: Path, c: Path)
    requires ProperPrefix(a, b) && ProperPrefix(b, c)
    ensures ProperPrefix(a, c)
  {}

  ghost predicate SameInEveryOrder(labels: map<string, string>) {
    forall o1, o2 :: IsOrderOf(o1, labels) && IsOrderOf(o2, labels) ==> Parse(labels, o1) == Parse(labels, o2)
  }

  lemma {:induction false} ConflictShows(labels: map<string, string>, k: string, l: string)
    requires Proper(labels) && k in labels && l in labels && ProperPrefix(PathFrom(k), PathFrom(l))
    ensures !SameInEveryOrder(labels)
  {
    var top := TopmostAbove(labels, k, l);
    var o1 := SortedByLength(labels.Keys);
    var o2 := OrderFrom(labels, top);
    assert IsOrderOf(o1, labels);
    LongestFirstIsClean(labels, o1);
    LongestFirstKeepsTop(labels, o1, top);
    ShorterFirstLosesIt(labels, o2, top, l);
  }

  lemma {:induction false} OrderFrom(labels: map<string, string>, k: string) returns (order: seq<string>)
    requires k in labels
    ensures IsOrderOf(order, labels) && order != [] && order[0] == k
  {
    var rest := SortedByLength(labels.Keys - {k});
    assert forall i :: 0 <= i < |rest| ==> rest[i] in labels.Keys - {k};
    order := [k] + rest;
  }

  /** The nested map does not depend on the order in which the labels are visited if and
      only if no label's path continues another's. */
  lemma {:induction false} SameInEveryOrderIffIndependent(labels: map<string, string>)
    requires Proper(labels)
    ensures SameInEveryOrder(labels) <==> Independent(labels)
  {
    if Independent(labels) {
      forall o1, o2 | IsOrderOf(o1, labels) && IsOrderOf(o2, labels)
        ensures Parse(labels, o1) == Parse(labels, o2)
      {
        OrderDoesNotMatter(labels, o1, o2);
      }
    } else {
      var p, q :| GoodPath(p) && GoodPath(q) && LabelOf(p) in labels && LabelOf(q) in labels && !Apart(p, q);
      PathOfLabel(p);
      PathOfLabel(q);
      if p <= q {
        ConflictShows(labels, LabelOf(p), LabelOf(q));
      } else {
        ConflictShows(labels, LabelOf(q), LabelOf(p));
      }
    }
  }
}

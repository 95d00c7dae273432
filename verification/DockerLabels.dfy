/** Docker labels: dotted names are nested into a tree of maps, and such a tree can be
    flattened back into dotted names. */
module DockerLabels {
  import opened Common

  /** A value of the nested map: a string, or a map in turn. */
  datatype Node = Leaf(value: string) | Branch(children: map<string, Node>)

  type Path = seq<string>

  const NS_PROXY := "proxy"

  const EMPTY := Branch(map[])

  // ---------------------------------------------------------------- dotted names

  function SplitDot(s: string): (parts: seq<string>)
    ensures |parts| >= 1
  {
    if s == "" then [""]
    else
      var rest := SplitDot(s[1..]);
      if s[0] == '.' then [""] + rest else [[s[0]] + rest[0]] + rest[1..]
  }

  function JoinDot(parts: Path): string {
    if parts == [] then "" else if |parts| == 1 then parts[0] else parts[0] + "." + JoinDot(parts[1..])
  }

  predicate GoodPart(part: string) {
    part != "" && '.' !in part
  }

  predicate GoodPath(path: Path) {
    path != [] && forall i :: 0 <= i < |path| ==> GoodPart(path[i])
  }

  lemma {:induction false} SplitPart(part: string, rest: string)
    requires '.' !in part
    ensures SplitDot(part) == [part]
    ensures SplitDot(part + "." + rest) == [part] + SplitDot(rest)
  {
    var s := part + "." + rest;
    if part == "" {
      assert s[1..] == rest;
    } else {
      SplitPart(part[1..], rest);
      assert s[1..] == part[1..] + "." + rest;
      assert [part[0]] + part[1..] == part;
    }
  }

  /** Splitting a joined path gives the path back, so joining is injective. */
  lemma {:induction false} SplitJoin(path: Path)
    requires path != [] && forall i :: 0 <= i < |path| ==> '.' !in path[i]
    ensures SplitDot(JoinDot(path)) == path
  {
    if |path| == 1 {
      SplitPart(path[0], "");
    } else {
      SplitPart(path[0], JoinDot(path[1..]));
      SplitJoin(path[1..]);
      assert [path[0]] + path[1..] == path;
    }
  }

  function LabelOf(path: Path): string {
    JoinDot([NS_PROXY] + path)
  }

  lemma SplitLabel(path: Path)
    requires GoodPath(path)
    ensures SplitDot(LabelOf(path)) == [NS_PROXY] + path
  {
    SplitJoin([NS_PROXY] + path);
  }

  // ---------------------------------------------------------------- nesting

  datatype Nested = Nested(root: Node, errors: nat)

  /** Sets a value, creating maps on the way. A non-empty string in the way is an error,
      after which the rest of the path is set from the same map on. */
  function Insert(n: Node, path: Path, value: string): (r: Nested)
    requires n.Branch? && path != []
    ensures r.root.Branch?
    decreases |path|
  {
    var m, k := n.children, path[0];
    if |path| == 1 then Nested(Branch(m[k := Leaf(value)]), 0)
    else if k in m && m[k].Leaf? && m[k].value != "" then
      var r := Insert(n, path[1..], value);
      Nested(r.root, r.errors + 1)
    else
      var child := if k in m && m[k].Branch? then m[k] else EMPTY;
      var r := Insert(child, path[1..], value);
      Nested(Branch(m[k := r.root]), r.errors)
  }

  /** One label: only those of the namespace count, and they need a path. */
  function AddLabel(acc: Nested, name: string, value: string): (r: Nested)
    requires acc.root.Branch?
    ensures r.root.Branch?
  {
    var parts := SplitDot(name);
    if parts[0] != NS_PROXY then acc
    else if |parts| == 1 then Nested(acc.root, acc.errors + 1)
    else
      var r := Insert(acc.root, parts[1..], value);
      Nested(r.root, acc.errors + r.errors)
  }

  /** The labels taken in a given order. */
  function Parse(labels: map<string, string>, order: seq<string>): (r: Nested)
    requires forall i :: 0 <= i < |order| ==> order[i] in labels
    ensures r.root.Branch?
  {
    if order == [] then Nested(EMPTY, 0)
    else
      var last := order[|order| - 1];
      AddLabel(Parse(labels, order[..|order| - 1]), last, labels[last])
  }

  /** Ranging over a map visits its keys in some order, each once. */
  predicate IsOrderOf(order: seq<string>, labels: map<string, string>) {
    && (forall i :: 0 <= i < |order| ==> order[i] in labels)
    && (forall k :: k in labels ==> k in order)
    && (forall i, j :: 0 <= i < j < |order| ==> order[i] != order[j])
  }

  method ParseLabels(labels: map<string, string>) returns (r: Nested)
    ensures exists order :: IsOrderOf(order, labels) && r == Parse(labels, order)
  {
    r := Nested(EMPTY, 0);
    ghost var order := [];
    var left := labels.Keys;
    while left != {}
      invariant left <= labels.Keys
      invariant forall k :: k in order <==> k in labels && k !in left
      invariant forall i, j :: 0 <= i < j < |order| ==> order[i] != order[j]
      invariant forall i :: 0 <= i < |order| ==> order[i] in labels
      invariant r == Parse(labels, order)
      decreases left
    {
      var k :| k in left;
      assert (order + [k])[..|order|] == order;
      r, order, left := AddLabel(r, k, labels[k]), order + [k], left - {k};
    }
  }

  // ---------------------------------------------------------------- which labels count

  /** The first part of a name is what stands before its first dot. */
  lemma {:induction false} FirstPart(s: string)
    ensures SplitDot(s)[0] <= s && '.' !in SplitDot(s)[0]
    ensures |SplitDot(s)| == 1 <==> SplitDot(s)[0] == s
    ensures SplitDot(s)[0] != s ==> s[|SplitDot(s)[0]|] == '.'
  {
    if s != "" {
      FirstPart(s[1..]);
      assert s == [s[0]] + s[1..];
    }
  }

  /** Names that begin with the namespace and a dot, and those that are the namespace alone. */
  lemma {:induction false} NamespaceOf(s: string)
    ensures SplitDot(s)[0] == "proxy" && |SplitDot(s)| > 1 <==> "proxy." <= s
    ensures SplitDot(s)[0] == "proxy" && |SplitDot(s)| == 1 <==> s == "proxy"
  {
    FirstPart(s);
    var first := SplitDot(s)[0];
    if "proxy." <= s {
      assert s[5] == "proxy."[5] == '.' && s[..5] == "proxy."[..5] == "proxy";
      assert first == s[..5];
    }
    if first == "proxy" && |SplitDot(s)| > 1 {
      assert s[..6] == first + ['.'] == "proxy.";
    }
  }

  /** Labels outside the namespace change nothing; the namespace alone is one error. */
  lemma {:induction false} OtherLabelsAreSkipped(acc: Nested, name: string, value: string)
    requires acc.root.Branch?
    ensures !("proxy." <= name) && name != "proxy" ==> AddLabel(acc, name, value) == acc
    ensures name == "proxy" ==> AddLabel(acc, name, value) == Nested(acc.root, acc.errors + 1)
  {
    NamespaceOf(name);
  }

  function InNamespace(order: seq<string>): seq<string> {
    if order == [] then []
    else
      var init, last := order[..|order| - 1], order[|order| - 1];
      InNamespace(init) + if "proxy." <= last then [last] else []
  }

  function LoneNamespaces(order: seq<string>): nat {
    if order == [] then 0
    else LoneNamespaces(order[..|order| - 1]) + if order[|order| - 1] == "proxy" then 1 else 0
  }

  lemma {:induction false} InNamespaceIsIn(labels: map<string, string>, order: seq<string>)
    requires forall i :: 0 <= i < |order| ==> order[i] in labels
    ensures forall i :: 0 <= i < |InNamespace(order)| ==> InNamespace(order)[i] in labels
  {
    if order != [] {
      InNamespaceIsIn(labels, order[..|order| - 1]);
    }
  }

  /** The result of any set of labels is that of those in the namespace, with one more error
      if the namespace alone is among them. */
  lemma {:induction false} OnlyTheNamespaceCounts(labels: map<string, string>, order: seq<string>)
    requires forall i :: 0 <= i < |order| ==> order[i] in labels
    ensures forall i :: 0 <= i < |InNamespace(order)| ==> InNamespace(order)[i] in labels
    ensures var all, ours := Parse(labels, order), Parse(labels, InNamespace(order));
            all.root == ours.root && all.errors == ours.errors + LoneNamespaces(order)
  {
    InNamespaceIsIn(labels, order);
    if order != [] {
      var init, last := order[..|order| - 1], order[|order| - 1];
      OnlyTheNamespaceCounts(labels, init);
      OtherLabelsAreSkipped(Parse(labels, init), last, labels[last]);
      var ours := InNamespace(init);
      if "proxy." <= last {
        assert (ours + [last])[..|ours|] == ours;
      } else {
        assert ours + [] == ours;
      }
    }
  }

  // ---------------------------------------------------------------- what a tree holds

  /** The value at a path. */
  function Find(n: Node, path: Path): Option<string>
    decreases |path|
  {
    match n
    case Leaf(v) => if path == [] then Some(v) else None
    case Branch(m) => if path != [] && path[0] in m then Find(m[path[0]], path[1..]) else None
  }

  /** No map in the tree is empty, except possibly the root. */
  ghost predicate NoEmptyBelow(n: Node)
    decreases n
  {
    n.Branch? ==> forall k :: k in n.children ==> n.children[k] != EMPTY && NoEmptyBelow(n.children[k])
  }

  /** Neither path continues the other. */
  predicate Apart(p: Path, q: Path) {
    p == q || (!(p <= q) && !(q <= p))
  }

  ghost predicate Fits(n: Node, path: Path) {
    forall p :: Find(n, p).Some? ==> Apart(p, path)
  }

  lemma {:induction false} HasLeaf(n: Node) returns (p: Path)
    requires NoEmptyBelow(n) && n != EMPTY
    ensures Find(n, p).Some?
    decreases n
  {
    match n
    case Leaf(_) => p := [];
    case Branch(m) =>
      var k :| k in m;
      var q := HasLeaf(m[k]);
      p := [k] + q;
      assert p[1..] == q;
  }

  lemma {:induction false} FindBelow(n: Node, k: string, p: Path)
    requires n.Branch? && k in n.children
    ensures Find(n, [k] + p) == Find(n.children[k], p)
  {
    assert ([k] + p)[1..] == p;
  }

  /** Whatever fits below a key, seen from the child. */
  lemma {:induction false} FitsBelow(n: Node, path: Path)
    requires n.Branch? && path != [] && path[0] in n.children && Fits(n, path)
    ensures Fits(n.children[path[0]], path[1..])
  {
    var k := path[0];
    forall p | Find(n.children[k], p).Some?
      ensures Apart(p, path[1..])
    {
      FindBelow(n, k, p);
      assert [k] + path[1..] == path;
      if p <= path[1..] {
        assert [k] + p <= path;
      }
      if path[1..] <= p {
        assert path <= [k] + p;
      }
      if [k] + p == path {
        assert p == path[1..];
      }
    }
  }

  /** What stands at the first key of a path that fits. */
  lemma {:induction false} FitsAtKey(n: Node, path: Path)
    requires n.Branch? && NoEmptyBelow(n) && path != [] && path[0] in n.children && Fits(n, path)
    ensures n.children[path[0]].Leaf? <==> |path| == 1
  {
    var k := path[0];
    var c := n.children[k];
    var q := HasLeaf(c);
    FindBelow(n, k, q);
    if |path| == 1 {
      assert path <= [k] + q;
      assert [k] + q == path;
      assert q == [];
    } else {
      FindBelow(n, k, []);
    }
  }

  /** Inserting a path that fits is no error, changes that path only, and leaves no empty map. */
  lemma {:induction false} InsertFits(n: Node, path: Path, value: string)
    requires n.Branch? && NoEmptyBelow(n) && path != [] && Fits(n, path)
    ensures var r := Insert(n, path, value);
            && r.errors == 0 && NoEmptyBelow(r.root) && r.root != EMPTY
            && (forall p :: Find(r.root, p) == if p == path then Some(value) else Find(n, p))
    decreases |path|
  {
    var m, k := n.children, path[0];
    var r := Insert(n, path, value);
    if k in m {
      FitsAtKey(n, path);
    }
    var child := if k in m && |path| > 1 then m[k] else EMPTY;
    if |path| > 1 {
      if k in m {
        FitsBelow(n, path);
      }
      InsertFits(child, path[1..], value);
      assert r.root.children[k] == Insert(child, path[1..], value).root;
    }
    forall p: Path
      ensures Find(r.root, p) == if p == path then Some(value) else Find(n, p)
    {
      if p != [] && p[0] == k {
        assert p == [k] + p[1..] && path == [k] + path[1..];
        assert p == path <==> p[1..] == path[1..];
      }
    }
    assert k in r.root.children;
  }

  /** A tree without empty maps is determined by what it holds. */
  lemma {:induction false} SameContents(a: Node, b: Node)
    requires NoEmptyBelow(a) && NoEmptyBelow(b) && (a != EMPTY ==> b != EMPTY) && (b != EMPTY ==> a != EMPTY)
    requires forall p :: Find(a, p) == Find(b, p)
    ensures a == b
    decreases a
  {
    assert Find(a, []) == Find(b, []);
    if a.Branch? && b.Branch? {
      forall k | k in a.children || k in b.children
        ensures k in a.children && k in b.children && a.children[k] == b.children[k]
      {
        var q;
        if k in a.children {
          q := HasLeaf(a.children[k]);
          FindBelow(a, k, q);
        } else {
          q := HasLeaf(b.children[k]);
          FindBelow(b, k, q);
        }
        assert Find(a, [k] + q) == Find(b, [k] + q);
        forall p: Path
          ensures Find(a.children[k], p) == Find(b.children[k], p)
        {
          FindBelow(a, k, p);
          FindBelow(b, k, p);
        }
        SameContents(a.children[k], b.children[k]);
      }
      assert a.children == b.children;
    }
  }

  // ---------------------------------------------------------------- order does not matter

  /** Labels of the namespace with proper paths, none of which continues another. */
  ghost predicate Independent(labels: map<string, string>) {
    && (forall k :: k in labels ==> exists p :: GoodPath(p) && k == LabelOf(p))
    && (forall p, q :: GoodPath(p) && GoodPath(q) && LabelOf(p) in labels && LabelOf(q) in labels ==> Apart(p, q))
  }

  /** The tree holds exactly the labels of the list. */
  ghost predicate Holds(n: Node, labels: map<string, string>, order: seq<string>) {
    forall p :: Find(n, p) ==
      if GoodPath(p) && LabelOf(p) in order && LabelOf(p) in labels then Some(labels[LabelOf(p)]) else None
  }

  lemma {:induction false} LabelInjective(p: Path, q: Path)
    requires GoodPath(p) && GoodPath(q) && LabelOf(p) == LabelOf(q)
    ensures p == q
  {
    SplitLabel(p);
    SplitLabel(q);
    assert ([NS_PROXY] + p)[1..] == p && ([NS_PROXY] + q)[1..] == q;
  }

  lemma {:induction false} ParseHolds(labels: map<string, string>, order: seq<string>)
    requires Independent(labels) && forall i :: 0 <= i < |order| ==> order[i] in labels
    ensures var r := Parse(labels, order);
            r.errors == 0 && NoEmptyBelow(r.root) && Holds(r.root, labels, order)
  {
    if order != [] {
      var init, name := order[..|order| - 1], order[|order| - 1];
      assert init + [name] == order;
      ParseHolds(labels, init);
      var path := PathOf(labels, name);
      AddLabelHolds(labels, Parse(labels, init), init, path, name);
      assert Parse(labels, order) == AddLabel(Parse(labels, init), name, labels[name]);
    } else {
      HoldsNothing(labels);
    }
  }

  lemma {:induction false} PathOf(labels: map<string, string>, name: string) returns (path: Path)
    requires Independent(labels) && name in labels
    ensures GoodPath(path) && name == LabelOf(path)
  {
    path :| GoodPath(path) && name == LabelOf(path);
  }

  lemma {:induction false} HoldsNothing(labels: map<string, string>)
    ensures Holds(EMPTY, labels, []) && NoEmptyBelow(EMPTY)
  {}

  lemma {:induction false} AddLabelHolds(labels: map<string, string>, acc: Nested, order: seq<string>, path: Path, name: string)
    requires Independent(labels) && GoodPath(path) && name == LabelOf(path) && name in labels
    requires acc.root.Branch? && acc.errors == 0 && NoEmptyBelow(acc.root) && Holds(acc.root, labels, order)
    ensures var r := AddLabel(acc, name, labels[name]);
            r.errors == 0 && NoEmptyBelow(r.root) && Holds(r.root, labels, order + [name])
  {
    var before, value := acc.root, labels[LabelOf(path)];
    SplitLabel(path);
    assert ([NS_PROXY] + path)[1..] == path;
    forall p | Find(before, p).Some?
      ensures Apart(p, path)
    {
      assert LabelOf(p) in labels;
    }
    InsertFits(before, path, value);
    HoldsOneMore(before, Insert(before, path, value).root, labels, order, path);
  }

  lemma {:induction false} HoldsOneMore(before: Node, after: Node, labels: map<string, string>, order: seq<string>, path: Path)
    requires Holds(before, labels, order) && GoodPath(path) && LabelOf(path) in labels
    requires forall p :: Find(after, p) == if p == path then Some(labels[LabelOf(path)]) else Find(before, p)
    ensures Holds(after, labels, order + [LabelOf(path)])
  {
    forall p: Path
      ensures Find(after, p) == if GoodPath(p) && LabelOf(p) in order + [LabelOf(path)] && LabelOf(p) in labels
                                then Some(labels[LabelOf(p)]) else None
    {
      if GoodPath(p) && LabelOf(p) == LabelOf(path) {
        LabelInjective(p, path);
      }
    }
  }

  /** Independent labels nest without error into the same tree, whatever the order in
      which the map is visited; the tree holds those labels and nothing else. */
  lemma {:induction false} OrderDoesNotMatter(labels: map<string, string>, o1: seq<string>, o2: seq<string>)
    requires Independent(labels) && IsOrderOf(o1, labels) && IsOrderOf(o2, labels)
    ensures Parse(labels, o1) == Parse(labels, o2) && Parse(labels, o1).errors == 0
    ensures Holds(Parse(labels, o1).root, labels, o1)
  {
    ParseHolds(labels, o1);
    ParseHolds(labels, o2);
    HeldAlike(Parse(labels, o1).root, Parse(labels, o2).root, labels, o1, o2);
  }

  lemma {:induction false} HeldAlike(a: Node, b: Node, labels: map<string, string>, o1: seq<string>, o2: seq<string>)
    requires a.Branch? && b.Branch? && NoEmptyBelow(a) && NoEmptyBelow(b)
    requires Holds(a, labels, o1) && Holds(b, labels, o2)
    requires forall k :: k in labels ==> k in o1 && k in o2
    ensures a == b
  {
    forall p: Path
      ensures Find(a, p) == Find(b, p)
    {
    }
    if a != EMPTY {
      var p := HasLeaf(a);
      assert Find(b, p).Some?;
    }
    if b != EMPTY {
      var p := HasLeaf(b);
      assert Find(a, p).Some?;
    }
    SameContents(a, b);
  }

  // ---------------------------------------------------------------- flattening

  /** Every key of the tree is a proper part of a name. */
  ghost predicate GoodKeys(n: Node)
    decreases n
  {
    n.Branch? ==> forall k :: k in n.children ==> GoodPart(k) && GoodKeys(n.children[k])
  }

  function Under(prefix: string, k: string): string {
    if prefix != "" then prefix + "." + k else k
  }

  /** The name a value gets: the keys on the way to it, joined by dots. */
  function NameUnder(prefix: string, p: Path): string
    decreases |p|
  {
    if p == [] then prefix else NameUnder(Under(prefix, p[0]), p[1..])
  }

  ghost predicate Named(prefix: string, n: Node, key: string) {
    exists p :: Find(n, p).Some? && NameUnder(prefix, p) == key
  }

  ghost predicate NamedWith(prefix: string, n: Node, key: string, value: string) {
    exists p :: Find(n, p) == Some(value) && NameUnder(prefix, p) == key
  }

  /** `dest` is `before` overwritten with the values below `n`, named from `prefix` on.
      Where values share a name, one of them stays. */
  ghost predicate Flattened(prefix: string, n: Node, before: map<string, string>, dest: map<string, string>) {
    && (forall key :: key in before || Named(prefix, n, key) ==> key in dest)
    && (forall key :: key in dest ==> FlattenedAt(prefix, n, before, key, dest[key]))
  }

  ghost predicate FlattenedAt(prefix: string, n: Node, before: map<string, string>, key: string, value: string) {
    if Named(prefix, n, key) then NamedWith(prefix, n, key, value) else key in before && value == before[key]
  }

  lemma {:induction false} FoundPathIsGood(n: Node, p: Path)
    requires GoodKeys(n) && Find(n, p).Some? && p != []
    ensures GoodPath(p)
    decreases |p|
  {
    if |p| > 1 {
      FoundPathIsGood(n.children[p[0]], p[1..]);
    }
    assert p == [p[0]] + p[1..];
  }

  lemma {:induction false} NameBelow(prefix: string, k: string, p: Path)
    ensures NameUnder(prefix, [k] + p) == NameUnder(Under(prefix, k), p)
  {
    assert ([k] + p)[1..] == p;
  }

  lemma {:induction false} NameIsJoined(prefix: string, p: Path)
    requires GoodPath(p)
    ensures NameUnder(prefix, p) == Under(prefix, JoinDot(p))
    decreases |p|
  {
    if |p| > 1 {
      NameIsJoined(Under(prefix, p[0]), p[1..]);
      var rest := JoinDot(p[1..]);
      assert prefix + "." + p[0] + "." + rest == prefix + "." + (p[0] + "." + rest);
    }
  }

  lemma {:induction false} NameInjective(prefix: string, p: Path, q: Path)
    requires GoodPath(p) && GoodPath(q) && NameUnder(prefix, p) == NameUnder(prefix, q)
    ensures p == q
  {
    NameIsJoined(prefix, p);
    NameIsJoined(prefix, q);
    var a, b := JoinDot(p), JoinDot(q);
    if prefix != "" {
      assert (prefix + "." + a)[|prefix| + 1..] == a && (prefix + "." + b)[|prefix| + 1..] == b;
    }
    SplitJoin(p);
    SplitJoin(q);
  }

  /** With proper keys no two values share a name, and each keeps its own. */
  lemma {:induction false} ProperNamesAreKept(prefix: string, n: Node, before: map<string, string>, dest: map<string, string>, p: Path)
    requires n.Branch? && GoodKeys(n) && Flattened(prefix, n, before, dest) && Find(n, p).Some?
    ensures NameUnder(prefix, p) in dest && dest[NameUnder(prefix, p)] == Find(n, p).value
  {
    var key := NameUnder(prefix, p);
    assert Named(prefix, n, key);
    assert FlattenedAt(prefix, n, before, key, dest[key]);
    var q :| Find(n, q) == Some(dest[key]) && NameUnder(prefix, q) == key;
    FoundPathIsGood(n, p);
    FoundPathIsGood(n, q);
    NameInjective(prefix, p, q);
  }

  function Part(m: map<string, Node>, keys: set<string>): Node {
    Branch(map k | k in m && k in keys :: m[k])
  }

  lemma {:induction false} NamedNext(prefix: string, m: map<string, Node>, done: set<string>, k: string, key: string, v: string)
    requires k in m && k !in done
    ensures var n := Part(m, done + {k});
            && (Named(prefix, n, key) <==> Named(prefix, Part(m, done), key) || Named(Under(prefix, k), m[k], key))
            && (NamedWith(prefix, n, key, v) <==> NamedWith(prefix, Part(m, done), key, v) || NamedWith(Under(prefix, k), m[k], key, v))
  {
    var n := Part(m, done + {k});
    forall p | Find(n, p).Some?
      ensures p != [] && (p[0] == k ==> Find(m[k], p[1..]) == Find(n, p) && NameUnder(prefix, p) == NameUnder(Under(prefix, k), p[1..]))
      ensures p[0] != k ==> Find(Part(m, done), p) == Find(n, p)
    {
    }
    forall p | Find(Part(m, done), p).Some?
      ensures Find(n, p) == Find(Part(m, done), p)
    {
    }
    forall q | Find(m[k], q).Some?
      ensures Find(n, [k] + q) == Find(m[k], q) && NameUnder(prefix, [k] + q) == NameUnder(Under(prefix, k), q)
    {
      FindBelow(n, k, q);
      NameBelow(prefix, k, q);
    }
  }

  /** Flattening one more child on top of those done so far. */
  lemma {:induction false} FlattenNext(prefix: string, m: map<string, Node>, done: set<string>, k: string,
                                       before: map<string, string>, d1: map<string, string>, d2: map<string, string>)
    requires k in m && k !in done
    requires Flattened(prefix, Part(m, done), before, d1) && Flattened(Under(prefix, k), m[k], d1, d2)
    ensures Flattened(prefix, Part(m, done + {k}), before, d2)
  {
    forall key: string
      ensures key in before || Named(prefix, Part(m, done + {k}), key) ==> key in d2
      ensures key in d2 ==> FlattenedAt(prefix, Part(m, done + {k}), before, key, d2[key])
    {
      NamedNext(prefix, m, done, k, key, if key in d2 then d2[key] else "");
    }
  }

  /** Flattens a tree into `dest`, visiting each map in some order. */
  method FlattenMap(prefix: string, n: Node, before: map<string, string>) returns (dest: map<string, string>)
    ensures Flattened(prefix, n, before, dest)
    decreases n, 1
  {
    match n {
      case Leaf(v) =>
        dest := before[prefix := v];
        LeafFlattened(prefix, v, before);
      case Branch(m) =>
        dest := FlattenChildren(prefix, n, before);
    }
  }

  lemma {:induction false} LeafFlattened(prefix: string, v: string, before: map<string, string>)
    ensures Flattened(prefix, Leaf(v), before, before[prefix := v])
  {
    assert Find(Leaf(v), []) == Some(v) && NameUnder(prefix, []) == prefix;
    assert forall p :: Find(Leaf(v), p).Some? ==> p == [];
  }

  lemma {:induction false} NothingFlattened(prefix: string, m: map<string, Node>, before: map<string, string>)
    ensures Flattened(prefix, Part(m, {}), before, before)
  {}

  method FlattenChildren(prefix: string, n: Node, before: map<string, string>) returns (dest: map<string, string>)
    requires n.Branch?
    ensures Flattened(prefix, n, before, dest)
    decreases n, 0
  {
    var m := n.children;
    var left := m.Keys;
    dest := before;
    ghost var done: set<string> := {};
    NothingFlattened(prefix, m, before);
    while left != {}
      invariant left <= m.Keys && done == m.Keys - left
      invariant Flattened(prefix, Part(m, done), before, dest)
      decreases left
    {
      var k :| k in left;
      ghost var d1 := dest;
      dest := FlattenMap(Under(prefix, k), m[k], dest);
      FlattenNext(prefix, m, done, k, before, d1, dest);
      left, done := left - {k}, done + {k};
    }
    assert Part(m, done) == n;
  }

  lemma {:induction false} HeldKeysAreGood(n: Node, labels: map<string, string>, order: seq<string>)
    requires NoEmptyBelow(n) && Holds(n, labels, order)
    ensures GoodKeys(n)
  {
    GoodFromLeaves(n);
  }

  /** If every path to a value is proper, so is every key. */
  lemma {:induction false} GoodFromLeaves(n: Node)
    requires NoEmptyBelow(n) && forall p :: Find(n, p).Some? && p != [] ==> GoodPath(p)
    ensures GoodKeys(n)
    decreases n
  {
    if n.Branch? {
      forall k | k in n.children
        ensures GoodPart(k) && GoodKeys(n.children[k])
      {
        var c := n.children[k];
        var q := HasLeaf(c);
        FindBelow(n, k, q);
        assert ([k] + q)[0] == k;
        forall p | Find(c, p).Some? && p != []
          ensures GoodPath(p)
        {
          FindBelow(n, k, p);
          assert forall i :: 0 <= i < |p| ==> p[i] == ([k] + p)[i + 1];
        }
        GoodFromLeaves(c);
      }
    }
  }

  /** `dest` has the names of the labels, without the namespace, and their values. */
  ghost predicate SameLabels(dest: map<string, string>, labels: map<string, string>) {
    && (forall p :: GoodPath(p) ==> (JoinDot(p) in dest <==> LabelOf(p) in labels))
    && (forall p :: GoodPath(p) && LabelOf(p) in labels ==> dest[JoinDot(p)] == labels[LabelOf(p)])
    && (forall key :: key in dest ==> exists p :: GoodPath(p) && key == JoinDot(p))
  }

  lemma {:induction false} NameComesBack(n: Node, labels: map<string, string>, order: seq<string>,
                                         dest: map<string, string>, p: Path)
    requires n.Branch? && GoodKeys(n) && Holds(n, labels, order) && (forall k :: k in labels ==> k in order)
    requires Flattened("", n, map[], dest) && GoodPath(p)
    ensures JoinDot(p) in dest <==> LabelOf(p) in labels
    ensures LabelOf(p) in labels ==> dest[JoinDot(p)] == labels[LabelOf(p)]
  {
    NameIsJoined("", p);
    if LabelOf(p) in labels {
      ProperNamesAreKept("", n, map[], dest, p);
    } else if JoinDot(p) in dest {
      assert FlattenedAt("", n, map[], JoinDot(p), dest[JoinDot(p)]);
      var q :| Find(n, q) == Some(dest[JoinDot(p)]) && NameUnder("", q) == JoinDot(p);
      NameInjective("", p, q);
    }
  }

  /** Nesting and flattening are inverse: flattening a tree that holds the labels gives
      them back - no more, no less. */
  lemma {:induction false} FlattenGivesLabelsBack(n: Node, labels: map<string, string>, order: seq<string>,
                                                  dest: map<string, string>)
    requires n.Branch? && GoodKeys(n) && Holds(n, labels, order) && (forall k :: k in labels ==> k in order)
    requires Flattened("", n, map[], dest)
    ensures SameLabels(dest, labels)
  {
    forall p | GoodPath(p)
      ensures JoinDot(p) in dest <==> LabelOf(p) in labels
      ensures LabelOf(p) in labels ==> dest[JoinDot(p)] == labels[LabelOf(p)]
    {
      NameComesBack(n, labels, order, dest, p);
    }
    forall key | key in dest
      ensures exists p :: GoodPath(p) && key == JoinDot(p)
    {
      assert FlattenedAt("", n, map[], key, dest[key]);
      var q :| Find(n, q) == Some(dest[key]) && NameUnder("", q) == key;
      NameIsJoined("", q);
      assert GoodPath(q) && key == JoinDot(q);
    }
  }

  /** The two loops one after the other, on independent labels. */
  method NestAndFlatten(labels: map<string, string>) returns (dest: map<string, string>)
    requires Independent(labels)
    ensures SameLabels(dest, labels)
  {
    var nested := ParseLabels(labels);
    ghost var order :| IsOrderOf(order, labels) && nested == Parse(labels, order);
    ParseHolds(labels, order);
    HeldKeysAreGood(nested.root, labels, order);
    dest := FlattenMap("", nested.root, map[]);
    FlattenGivesLabelsBack(nested.root, labels, order, dest);
  }
}

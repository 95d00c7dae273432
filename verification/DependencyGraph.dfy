/** The dependency graph of idle-watched containers and the transitive reduction
    of one container's direct dependencies. */
module DependencyGraph {
  type Key = string

  datatype Dependency = Dependency(key: Key, waitHealthy: bool)

  /** The direct dependencies of every watched container. */
  type Graph = map<Key, seq<Dependency>>

  predicate Closed(g: Graph) {
    forall k, i :: k in g && 0 <= i < |g[k]| ==> g[k][i].key in g
  }

  predicate Edge(g: Graph, a: Key, b: Key) {
    a in g && exists i :: 0 <= i < |g[a]| && g[a][i].key == b
  }

  predicate IsPath(g: Graph, p: seq<Key>) {
    |p| >= 2 && forall i :: 0 <= i < |p| - 1 ==> Edge(g, p[i], p[i + 1])
  }

  /** `a` depends on `b`, directly or not. */
  ghost predicate Reaches(g: Graph, a: Key, b: Key) {
    exists p :: IsPath(g, p) && p[0] == a && p[|p| - 1] == b
  }

  ghost predicate Acyclic(g: Graph) {
    forall a :: !Reaches(g, a, a)
  }

  ghost predicate IsDag(g: Graph) {
    Closed(g) && Acyclic(g)
  }

  ghost function ReachSet(g: Graph, a: Key): set<Key> {
    set b | b in g && Reaches(g, a, b)
  }

  // ---------------------------------------------------------------- reachability

  lemma {:induction false} EdgeReaches(g: Graph, a: Key, b: Key)
    requires Edge(g, a, b)
    ensures Reaches(g, a, b)
  {
    assert IsPath(g, [a, b]);
  }

  lemma {:induction false} ReachTransitive(g: Graph, a: Key, b: Key, c: Key)
    requires Reaches(g, a, b) && Reaches(g, b, c)
    ensures Reaches(g, a, c)
  {
    var p :| IsPath(g, p) && p[0] == a && p[|p| - 1] == b;
    var q :| IsPath(g, q) && q[0] == b && q[|q| - 1] == c;
    var r := p + q[1..];
    forall i | 0 <= i < |r| - 1
      ensures Edge(g, r[i], r[i + 1])
    {
      if i >= |p| - 1 {
        assert Edge(g, q[i - |p| + 1], q[i - |p| + 2]);
      } else {
        assert Edge(g, p[i], p[i + 1]);
      }
    }
    assert IsPath(g, r);
  }

  /** A path splits into its first edge and the rest. */
  lemma {:induction false} FirstStep(g: Graph, a: Key, c: Key) returns (b: Key)
    requires Reaches(g, a, c)
    ensures Edge(g, a, b) && (b == c || Reaches(g, b, c))
  {
    var p :| IsPath(g, p) && p[0] == a && p[|p| - 1] == c;
    b := p[1];
    assert Edge(g, p[0], p[0 + 1]);
    if |p| > 2 {
      var q := p[1..];
      forall i | 0 <= i < |q| - 1
        ensures Edge(g, q[i], q[i + 1])
      {
        assert Edge(g, p[i + 1], p[i + 1 + 1]);
      }
      assert IsPath(g, q);
    }
  }

  lemma {:induction false} PathStaysInside(g: Graph, p: seq<Key>, i: nat)
    requires Closed(g) && IsPath(g, p) && i < |p|
    ensures p[i] in g
    ensures i > 0 ==> Reaches(g, p[0], p[i])
  {
    if i == 0 {
      assert Edge(g, p[0], p[0 + 1]);
    } else {
      PathStaysInside(g, p, i - 1);
      assert Edge(g, p[i - 1], p[i - 1 + 1]);
      EdgeReaches(g, p[i - 1], p[i]);
      if i > 1 {
        ReachTransitive(g, p[0], p[i - 1], p[i]);
      }
    }
  }

  lemma {:induction false} ReachedIsWatched(g: Graph, a: Key, b: Key)
    requires Closed(g) && Reaches(g, a, b)
    ensures a in g && b in g && b in ReachSet(g, a)
  {
    var p :| IsPath(g, p) && p[0] == a && p[|p| - 1] == b;
    PathStaysInside(g, p, 0);
    PathStaysInside(g, p, |p| - 1);
  }

  /** What a dependency reaches, its dependent reaches too, and one more. */
  lemma {:induction false} ReachSetShrinks(g: Graph, a: Key, b: Key)
    requires Closed(g) && Acyclic(g) && Reaches(g, a, b)
    ensures ReachSet(g, b) < ReachSet(g, a)
    ensures b in ReachSet(g, a) && b !in ReachSet(g, b)
  {
    ReachedIsWatched(g, a, b);
    forall c | c in ReachSet(g, b)
      ensures c in ReachSet(g, a)
    {
      ReachTransitive(g, a, b, c);
    }
  }

  /** How many containers a container depends on. */
  ghost function Rank(g: Graph, a: Key): nat {
    |ReachSet(g, a)|
  }

  lemma {:induction false} RankShrinks(g: Graph, a: Key, b: Key)
    requires Closed(g) && Acyclic(g) && Edge(g, a, b)
    ensures Rank(g, b) < Rank(g, a) && b in g
  {
    EdgeReaches(g, a, b);
    ReachSetShrinks(g, a, b);
    ReachedIsWatched(g, a, b);
    ProperSubsetIsSmaller(ReachSet(g, b), ReachSet(g, a));
  }

  lemma {:induction false} ProperSubsetIsSmaller(x: set<Key>, y: set<Key>)
    requires x < y
    ensures |x| < |y|
  {
    var k :| k in y && k !in x;
    assert |y| == |y - {k}| + 1;
    SubsetIsNotLarger(x, y - {k});
  }

  lemma {:induction false} SubsetIsNotLarger(x: set<Key>, y: set<Key>)
    requires x <= y
    ensures |x| <= |y|
  {
    assert y == x + (y - x);
    assert |y| == |x| + |y - x|;
  }

  // ---------------------------------------------------------------- the ordered map

  /** An insertion-ordered map: setting a present key keeps its place. */
  datatype OrderedMap = OrderedMap(keys: seq<Key>, vals: map<Key, Dependency>) {
    ghost predicate Valid() {
      && (forall k :: k in keys <==> k in vals)
      && Distinct(keys)
      && (forall k :: k in vals ==> vals[k].key == k)
    }

    function Set(d: Dependency): (m: OrderedMap)
      requires Valid()
      ensures m.Valid() && m.vals == vals[d.key := d]
    {
      OrderedMap(if d.key in vals then keys else keys + [d.key], vals[d.key := d])
    }

    function Del(k: Key): (m: OrderedMap)
      requires Valid()
      ensures m.Valid() && m.vals == vals - {k}
    {
      OrderedMap(Without(keys, k), vals - {k})
    }

    /** Sets every entry of `other`. */
    method SetAll(other: OrderedMap) returns (m: OrderedMap)
      requires Valid() && other.Valid()
      ensures m.Valid() && m.vals == vals + other.vals
    {
      m := this;
      for i := 0 to |other.keys|
        invariant m.Valid() && m.vals.Keys == vals.Keys + (set k | k in other.keys[..i])
        invariant forall k :: k in m.vals ==> m.vals[k] == if k in other.keys[..i] then other.vals[k] else vals[k]
      {
        var k := other.keys[i];
        assert k in other.vals && other.keys[..i + 1] == other.keys[..i] + [k];
        m := m.Set(other.vals[k]);
      }
      assert other.keys[..|other.keys|] == other.keys;
    }

    /** Deletes every key of `other`. */
    method DelAll(other: OrderedMap) returns (m: OrderedMap)
      requires Valid() && other.Valid()
      ensures m.Valid() && m.vals == vals - other.vals.Keys
    {
      m := this;
      for i := 0 to |other.keys|
        invariant m.Valid() && m.vals == vals - (set k | k in other.keys[..i])
      {
        assert other.keys[..i + 1] == other.keys[..i] + [other.keys[i]];
        m := m.Del(other.keys[i]);
      }
      assert other.keys[..|other.keys|] == other.keys;
      assert other.vals.Keys == set k | k in other.keys;
    }

    method Values() returns (deps: seq<Dependency>)
      requires Valid()
      ensures |deps| == |keys| && forall i :: 0 <= i < |deps| ==> keys[i] in vals && deps[i] == vals[keys[i]]
    {
      deps := [];
      for i := 0 to |keys|
        invariant |deps| == i
        invariant forall j :: 0 <= j < i ==> keys[j] in vals && deps[j] == vals[keys[j]]
      {
        deps := deps + [vals[keys[i]]];
      }
    }
  }

  function Without(keys: seq<Key>, k: Key): (r: seq<Key>)
    ensures forall x :: x in r <==> x in keys && x != k
    ensures Distinct(keys) ==> Distinct(r)
  {
    if keys == [] then []
    else
      var rest := Without(keys[1..], k);
      assert keys == [keys[0]] + keys[1..];
      assert Distinct(keys) ==> Distinct(keys[1..]) && keys[0] !in keys[1..];
      if keys[0] == k then rest else [keys[0]] + rest
  }

  predicate Distinct(keys: seq<Key>) {
    forall i, j :: 0 <= i < j < |keys| ==> keys[i] != keys[j]
  }

  // ---------------------------------------------------------------- the reduction

  /** `deps` are the direct dependencies of `w` that no other direct dependency needs,
      each once and with the setting listed last. */
  ghost predicate Reduced(g: Graph, w: Key, deps: seq<Dependency>)
    requires w in g
  {
    && (forall i, j :: 0 <= i < j < |deps| ==> deps[i].key != deps[j].key)
    && (forall i :: 0 <= i < |deps| ==> IsLastListed(g[w], |g[w]|, deps[i]))
    && (forall k :: Listed(deps, k) <==> Kept(g, w, k))
  }

  /** Of the first `n` entries `d` is the last one with its key. */
  predicate IsLastListed(deps: seq<Dependency>, n: nat, d: Dependency)
    requires n <= |deps|
  {
    exists i :: 0 <= i < n && deps[i] == d && forall j :: i < j < n ==> deps[j].key != d.key
  }

  predicate Listed(deps: seq<Dependency>, k: Key) {
    exists i :: 0 <= i < |deps| && deps[i].key == k
  }

  ghost predicate Kept(g: Graph, w: Key, k: Key) {
    Edge(g, w, k) && !ReachedFromDirect(g, w, k)
  }

  ghost predicate ReachedFromDirect(g: Graph, w: Key, k: Key) {
    exists d :: Edge(g, w, d) && Reaches(g, d, k)
  }

  /** Every direct dependency is kept or needed by one that is. */
  lemma {:induction false} KeptAbove(g: Graph, w: Key, d: Key) returns (m: Key)
    requires Closed(g) && Acyclic(g) && Edge(g, w, d)
    ensures Kept(g, w, m) && (m == d || Reaches(g, m, d))
    decreases ReachSet(g, w) - ReachSet(g, d)
  {
    if Kept(g, w, d) {
      m := d;
    } else {
      var d' :| Edge(g, w, d') && Reaches(g, d', d);
      ReachSetShrinks(g, d', d);
      EdgeReaches(g, w, d);
      ReachedIsWatched(g, w, d);
      m := KeptAbove(g, w, d');
      if m != d' {
        ReachTransitive(g, m, d', d);
      }
    }
  }

  /** Below a direct dependency of `w` nothing changes when `w` is rewired. */
  lemma {:induction false} BelowIsUntouched(g: Graph, w: Key, deps: seq<Dependency>, m: Key, d: Key)
    requires Closed(g) && Acyclic(g) && Edge(g, w, m) && Reaches(g, m, d)
    ensures Reaches(g[w := deps], m, d)
  {
    var p :| IsPath(g, p) && p[0] == m && p[|p| - 1] == d;
    EdgeReaches(g, w, m);
    forall i | 0 <= i < |p| - 1
      ensures Edge(g[w := deps], p[i], p[i + 1])
    {
      PathStaysInside(g, p, i);
      assert Edge(g, p[i], p[i + 1]);
      if p[i] == w && i > 0 {
        ReachTransitive(g, w, m, w);
      }
      assert p[i] != w;
    }
    assert IsPath(g[w := deps], p);
  }

  lemma {:induction false} EdgeSurvives(g: Graph, w: Key, deps: seq<Dependency>, a: Key, b: Key)
    requires Closed(g) && Acyclic(g) && w in g && Reduced(g, w, deps) && Edge(g, a, b)
    ensures Reaches(g[w := deps], a, b)
  {
    var g' := g[w := deps];
    if a != w {
      assert Edge(g', a, b);
      EdgeReaches(g', a, b);
    } else {
      var m := KeptAbove(g, w, b);
      assert Listed(deps, m);
      assert Edge(g', w, m);
      EdgeReaches(g', w, m);
      if m != b {
        BelowIsUntouched(g, w, deps, m, b);
        ReachTransitive(g', w, m, b);
      }
    }
  }

  lemma {:induction false} PathSurvives(g: Graph, w: Key, deps: seq<Dependency>, p: seq<Key>, n: nat)
    requires Closed(g) && Acyclic(g) && w in g && Reduced(g, w, deps)
    requires IsPath(g, p) && 0 < n < |p|
    ensures Reaches(g[w := deps], p[0], p[n])
  {
    assert Edge(g, p[n - 1], p[n - 1 + 1]);
    EdgeSurvives(g, w, deps, p[n - 1], p[n]);
    if n > 1 {
      PathSurvives(g, w, deps, p, n - 1);
      ReachTransitive(g[w := deps], p[0], p[n - 1], p[n]);
    }
  }

  /** Reduction keeps who depends on whom, for every pair of containers. */
  lemma {:induction false} ReductionPreservesReach(g: Graph, w: Key, deps: seq<Dependency>, a: Key, b: Key)
    requires Closed(g) && Acyclic(g) && w in g && Reduced(g, w, deps)
    ensures Reaches(g[w := deps], a, b) <==> Reaches(g, a, b)
  {
    var g' := g[w := deps];
    if Reaches(g, a, b) {
      var p :| IsPath(g, p) && p[0] == a && p[|p| - 1] == b;
      PathSurvives(g, w, deps, p, |p| - 1);
    }
    if Reaches(g', a, b) {
      var p :| IsPath(g', p) && p[0] == a && p[|p| - 1] == b;
      forall i | 0 <= i < |p| - 1
        ensures Edge(g, p[i], p[i + 1])
      {
        assert Edge(g', p[i], p[i + 1]);
        if p[i] == w {
          assert Listed(deps, p[i + 1]);
        }
      }
      assert IsPath(g, p);
    }
  }

  /** The kept dependencies form an antichain, and the graph stays acyclic. */
  lemma {:induction false} ReductionIsAntichain(g: Graph, w: Key, deps: seq<Dependency>)
    requires Closed(g) && Acyclic(g) && w in g && Reduced(g, w, deps)
    ensures Closed(g[w := deps]) && Acyclic(g[w := deps])
    ensures forall i, j :: 0 <= i < |deps| && 0 <= j < |deps| ==>
              !Reaches(g[w := deps], deps[i].key, deps[j].key)
  {
    var g' := g[w := deps];
    forall a: Key
      ensures !Reaches(g', a, a)
    {
      ReductionPreservesReach(g, w, deps, a, a);
    }
    forall i, j | 0 <= i < |deps| && 0 <= j < |deps|
      ensures !Reaches(g[w := deps], deps[i].key, deps[j].key)
    {
      ReductionPreservesReach(g, w, deps, deps[i].key, deps[j].key);
      assert Listed(deps, deps[i].key) && Listed(deps, deps[j].key);
      assert Kept(g, w, deps[j].key);
    }
  }

  /** No smaller choice would do: without a kept dependency its container is lost. */
  lemma {:induction false} ReductionIsMinimal(g: Graph, w: Key, deps: seq<Dependency>, i: nat)
    requires Closed(g) && Acyclic(g) && w in g && Reduced(g, w, deps) && i < |deps|
    ensures !Reaches(g[w := deps[..i] + deps[i + 1..]], w, deps[i].key)
  {
    var fewer := deps[..i] + deps[i + 1..];
    var h, k := g[w := fewer], deps[i].key;
    assert Listed(deps, k) && Kept(g, w, k);
    if Reaches(h, w, k) {
      var d := FirstStep(h, w, k);
      ListedElsewhere(deps, i, d);
      forall x, y | Edge(h, x, y)
        ensures Edge(g, x, y)
      {
        if x == w {
          ListedElsewhere(deps, i, y);
        }
      }
      SubgraphReaches(h, g, d, k);
    }
  }

  lemma {:induction false} ListedElsewhere(deps: seq<Dependency>, i: nat, d: Key)
    requires i < |deps| && Listed(deps[..i] + deps[i + 1..], d)
    ensures exists j :: 0 <= j < |deps| && j != i && deps[j].key == d
    ensures Listed(deps, d)
  {
    var fewer := deps[..i] + deps[i + 1..];
    var j :| 0 <= j < |fewer| && fewer[j].key == d;
    assert deps[if j < i then j else j + 1] == fewer[j];
  }

  lemma {:induction false} SubgraphReaches(h: Graph, g: Graph, a: Key, b: Key)
    requires forall x, y :: Edge(h, x, y) ==> Edge(g, x, y)
    requires Reaches(h, a, b)
    ensures Reaches(g, a, b)
  {
    var p :| IsPath(h, p) && p[0] == a && p[|p| - 1] == b;
    assert IsPath(g, p);
  }

  /** The health of `k` is to be waited for. */
  predicate Awaited(deps: seq<Dependency>, k: Key) {
    Dependency(k, true) in deps
  }

  /** The reduction drops conditions: `w` still waits for the health of all it did if and
      only if none of these is needed by another direct dependency, nor listed again later
      without the condition. */
  lemma {:induction false} HealthConditionsSurviveIff(g: Graph, w: Key, deps: seq<Dependency>)
    requires w in g && Reduced(g, w, deps)
    ensures (forall k :: Awaited(g[w], k) ==> Awaited(deps, k)) <==>
            (forall k :: Awaited(g[w], k) ==>
               !ReachedFromDirect(g, w, k) && IsLastListed(g[w], |g[w]|, Dependency(k, true)))
  {
    forall k | Awaited(g[w], k)
      ensures Awaited(deps, k) <==> !ReachedFromDirect(g, w, k) && IsLastListed(g[w], |g[w]|, Dependency(k, true))
    {
      ConditionSurvivesIff(g, w, deps, k);
    }
  }

  lemma {:induction false} ConditionSurvivesIff(g: Graph, w: Key, deps: seq<Dependency>, k: Key)
    requires w in g && Reduced(g, w, deps) && Awaited(g[w], k)
    ensures Awaited(deps, k) <==> !ReachedFromDirect(g, w, k) && IsLastListed(g[w], |g[w]|, Dependency(k, true))
  {
    var m :| 0 <= m < |g[w]| && g[w][m] == Dependency(k, true);
    assert g[w][m].key == k;
    assert Edge(g, w, k);
    if Awaited(deps, k) {
      var i :| 0 <= i < |deps| && deps[i] == Dependency(k, true);
      assert deps[i].key == k && Listed(deps, k);
    }
    if !ReachedFromDirect(g, w, k) && IsLastListed(g[w], |g[w]|, Dependency(k, true)) {
      assert Kept(g, w, k) && Listed(deps, k);
      var i :| 0 <= i < |deps| && deps[i].key == k;
      LastListedIsUnique(g[w], deps[i], Dependency(k, true));
    }
  }

  lemma {:induction false} LastListedIsUnique(deps: seq<Dependency>, d: Dependency, e: Dependency)
    requires IsLastListed(deps, |deps|, d) && IsLastListed(deps, |deps|, e) && d.key == e.key
    ensures d == e
  {}

  /** Two containers, the first waited for and needed by the second. */
  const SHARED_HEALTH: Graph :=
    map["w" := [Dependency("a", true), Dependency("b", false)], "b" := [Dependency("a", false)], "a" := []]

  lemma {:induction false} SharedHealthReach(k: Key)
    ensures !Reaches(SHARED_HEALTH, "a", k)
    ensures Reaches(SHARED_HEALTH, "b", k) <==> k == "a"
  {
    var g: Graph := SHARED_HEALTH;
    assert g["b"][0].key == "a";
    EdgeReaches(g, "b", "a");
    if Reaches(g, "a", k) {
      var x := FirstStep(g, "a", k);
    }
    if Reaches(g, "b", k) {
      var x := FirstStep(g, "b", k);
      assert x == "a";
    }
  }

  /** Its only reduction forgets the condition. */
  lemma {:induction false} ConditionIsDropped(deps: seq<Dependency>)
    ensures Awaited(SHARED_HEALTH["w"], "a")
    ensures Reduced(SHARED_HEALTH, "w", deps) <==> deps == [Dependency("b", false)]
  {
    var g: Graph := SHARED_HEALTH;
    var only := [Dependency("b", false)];
    assert g["w"][0].key == "a" && g["w"][1].key == "b";
    forall k: Key
      ensures Kept(g, "w", k) <==> k == "b"
    {
      SharedHealthReach(k);
      if k == "a" {
        assert Edge(g, "w", "b") && Reaches(g, "b", "a");
      }
    }
    assert only[0].key == "b" && g["w"][1] == only[0];
    assert Listed(only, "b");
    if Reduced(g, "w", deps) {
      assert Listed(deps, "b");
      forall i | 0 <= i < |deps|
        ensures deps[i] == only[0]
      {
        assert Listed(deps, deps[i].key);
        LastListedIsUnique(g["w"], deps[i], only[0]);
      }
      assert |deps| < 2 || deps[0].key != deps[1].key;
    }
  }

  // ---------------------------------------------------------------- the watchers

  class Watchers {
    var dependsOn: Graph

    ghost predicate Valid()
      reads this
    {
      Closed(dependsOn) && Acyclic(dependsOn)
    }

    /** All transitive dependencies. An entry set later overrides an earlier one, so a direct
        dependency that nothing below needs ends up with the setting listed last. */
    method Dependencies(w: Key) returns (deps: OrderedMap)
      requires Valid() && w in dependsOn
      ensures AllDependencies(dependsOn, w, deps)
      decreases Rank(dependsOn, w), 1
    {
      deps := OrderedMap([], map[]);
      for i := 0 to |dependsOn[w]|
        invariant Collected(dependsOn, w, i, deps)
      {
        deps := CollectNext(w, i, deps);
      }
      CollectedAll(dependsOn, w, deps);
    }

    method CollectNext(w: Key, i: nat, before: OrderedMap) returns (deps: OrderedMap)
      requires Valid() && w in dependsOn && i < |dependsOn[w]| && Collected(dependsOn, w, i, before)
      ensures Collected(dependsOn, w, i + 1, deps)
      decreases Rank(dependsOn, w), 0
    {
      var dep := dependsOn[w][i];
      assert Edge(dependsOn, w, dep.key);
      RankShrinks(dependsOn, w, dep.key);
      deps := before.Set(dep);
      var sub := Dependencies(dep.key);
      deps := deps.SetAll(sub);
      CollectStep(dependsOn, w, i, before, sub, deps);
    }

    /** The direct dependencies that no other direct dependency needs, each once. */
    method ReducedDependencies(w: Key) returns (newDeps: seq<Dependency>)
      requires Valid() && w in dependsOn
      ensures Reduced(dependsOn, w, newDeps)
    {
      var deps := Dependencies(w);
      for i := 0 to |dependsOn[w]|
        invariant Pruned(dependsOn, w, i, deps)
      {
        var depdeps := Dependencies(dependsOn[w][i].key);
        ghost var before := deps;
        deps := deps.DelAll(depdeps);
        PruneStep(dependsOn, w, i, before, depdeps, deps);
      }
      newDeps := deps.Values();
      ValuesAreReduced(dependsOn, w, deps, newDeps);
    }

    /** Rewires `w` to its reduced dependencies; who depends on whom stays the same. */
    method DedupDependencies(w: Key)
      requires Valid() && w in dependsOn
      modifies this
      ensures Valid()
      ensures dependsOn.Keys == old(dependsOn).Keys && Reduced(old(dependsOn), w, dependsOn[w])
      ensures dependsOn == old(dependsOn)[w := dependsOn[w]]
      ensures forall a, b :: Reaches(dependsOn, a, b) <==> Reaches(old(dependsOn), a, b)
    {
      ghost var g := dependsOn;
      var newDeps := ReducedDependencies(w);
      dependsOn := dependsOn[w := newDeps];
      ReductionIsAntichain(g, w, newDeps);
      forall a: Key, b: Key
        ensures Reaches(dependsOn, a, b) <==> Reaches(g, a, b)
      {
        ReductionPreservesReach(g, w, newDeps, a, b);
      }
    }
  }

  /** The map of all transitive dependencies of `w`. */
  ghost predicate AllDependencies(g: Graph, w: Key, deps: OrderedMap)
    requires w in g
  {
    && deps.Valid()
    && (forall k :: k in deps.vals <==> Reaches(g, w, k))
    && (forall k :: k in deps.vals ==> IsLastListed(g[w], |g[w]|, deps.vals[k]) || ReachedFromDirect(g, w, k))
  }

  lemma {:induction false} CollectedAll(g: Graph, w: Key, deps: OrderedMap)
    requires w in g && Collected(g, w, |g[w]|, deps)
    ensures AllDependencies(g, w, deps)
  {
    forall k: Key
      ensures k in deps.vals <==> Reaches(g, w, k)
    {
      BelowAll(g, w, k);
    }
  }

  ghost predicate ReachedNotBelow(g: Graph, w: Key, n: nat, k: Key)
    requires w in g && n <= |g[w]|
  {
    Reaches(g, w, k) && forall m :: 0 <= m < n ==> !Reaches(g, g[w][m].key, k)
  }

  /** `deps` is what is left of the dependencies of `w` after pruning below its first `n`. */
  ghost predicate Pruned(g: Graph, w: Key, n: nat, deps: OrderedMap)
    requires w in g && n <= |g[w]|
  {
    && deps.Valid()
    && (forall k :: k in deps.vals <==> ReachedNotBelow(g, w, n, k))
    && (forall k :: k in deps.vals ==> IsLastListed(g[w], |g[w]|, deps.vals[k]) || ReachedFromDirect(g, w, k))
  }

  lemma {:induction false} PruneStep(g: Graph, w: Key, n: nat, before: OrderedMap, below: OrderedMap, after: OrderedMap)
    requires w in g && n < |g[w]| && Pruned(g, w, n, before)
    requires forall k :: k in below.vals <==> Reaches(g, g[w][n].key, k)
    requires after.Valid() && after.vals == before.vals - below.vals.Keys
    ensures Pruned(g, w, n + 1, after)
  {
    forall k: Key
      ensures k in after.vals <==> ReachedNotBelow(g, w, n + 1, k)
    {
      assert k in after.vals <==> k in before.vals && !Reaches(g, g[w][n].key, k);
    }
  }

  lemma {:induction false} ValuesAreReduced(g: Graph, w: Key, deps: OrderedMap, newDeps: seq<Dependency>)
    requires w in g && Pruned(g, w, |g[w]|, deps)
    requires |newDeps| == |deps.keys|
    requires forall i :: 0 <= i < |newDeps| ==> deps.keys[i] in deps.vals && newDeps[i] == deps.vals[deps.keys[i]]
    ensures Reduced(g, w, newDeps)
  {
    forall k: Key
      ensures Listed(newDeps, k) <==> Kept(g, w, k)
    {
      KeptIffReachedAlone(g, w, k);
      if k in deps.vals {
        var i :| 0 <= i < |deps.keys| && deps.keys[i] == k;
        assert newDeps[i].key == k;
      }
    }
    forall i | 0 <= i < |newDeps|
      ensures IsLastListed(g[w], |g[w]|, newDeps[i])
    {
      assert Listed(newDeps, newDeps[i].key);
    }
  }

  /** `k` is, or is below, one of the first `n` direct dependencies. */
  ghost predicate Below(g: Graph, w: Key, n: nat, k: Key)
    requires w in g && n <= |g[w]|
  {
    exists i :: 0 <= i < n && (g[w][i].key == k || Reaches(g, g[w][i].key, k))
  }

  /** `deps` holds the first `n` direct dependencies of `w` and all below them. */
  ghost predicate Collected(g: Graph, w: Key, n: nat, deps: OrderedMap)
    requires w in g && n <= |g[w]|
  {
    && deps.Valid()
    && (forall k :: k in deps.vals <==> Below(g, w, n, k))
    && (forall k :: k in deps.vals ==> IsLastListed(g[w], n, deps.vals[k]) || ReachedFromDirect(g, w, k))
  }

  lemma {:induction false} CollectStep(g: Graph, w: Key, n: nat, before: OrderedMap, below: OrderedMap, after: OrderedMap)
    requires w in g && n < |g[w]| && Collected(g, w, n, before)
    requires forall k :: k in below.vals <==> Reaches(g, g[w][n].key, k)
    requires after.Valid() && after.vals == before.vals[g[w][n].key := g[w][n]] + below.vals
    ensures Collected(g, w, n + 1, after)
  {
    assert Edge(g, w, g[w][n].key);
    forall k: Key
      ensures k in after.vals <==> Below(g, w, n + 1, k)
      ensures k in after.vals ==> IsLastListed(g[w], n + 1, after.vals[k]) || ReachedFromDirect(g, w, k)
    {
      BelowNext(g, w, n, k);
      if k in after.vals && !ReachedFromDirect(g, w, k) {
        assert k !in below.vals;
        if k == g[w][n].key {
          assert g[w][n] == after.vals[k];
        } else {
          LastListedNext(g[w], n, before.vals[k]);
        }
      }
    }
  }

  lemma {:induction false} LastListedNext(deps: seq<Dependency>, n: nat, d: Dependency)
    requires n < |deps| && IsLastListed(deps, n, d) && deps[n].key != d.key
    ensures IsLastListed(deps, n + 1, d)
  {
    var i :| 0 <= i < n && deps[i] == d && forall j :: i < j < n ==> deps[j].key != d.key;
    assert deps[i] == d;
  }

  lemma {:induction false} BelowNext(g: Graph, w: Key, n: nat, k: Key)
    requires w in g && n < |g[w]|
    ensures Below(g, w, n + 1, k) <==> Below(g, w, n, k) || g[w][n].key == k || Reaches(g, g[w][n].key, k)
  {
    if Below(g, w, n, k) {
      var i :| 0 <= i < n && (g[w][i].key == k || Reaches(g, g[w][i].key, k));
      assert g[w][i].key == k || Reaches(g, g[w][i].key, k);
    }
    if g[w][n].key == k || Reaches(g, g[w][n].key, k) {
      assert Below(g, w, n + 1, k);
    }
  }

  lemma {:induction false} BelowAll(g: Graph, w: Key, k: Key)
    requires w in g
    ensures Below(g, w, |g[w]|, k) <==> Reaches(g, w, k)
  {
    if Reaches(g, w, k) {
      var d := FirstStep(g, w, k);
      var i :| 0 <= i < |g[w]| && g[w][i].key == d;
      assert g[w][i].key == k || Reaches(g, g[w][i].key, k);
    }
    if Below(g, w, |g[w]|, k) {
      var i :| 0 <= i < |g[w]| && (g[w][i].key == k || Reaches(g, g[w][i].key, k));
      assert Edge(g, w, g[w][i].key);
      EdgeReaches(g, w, g[w][i].key);
      if g[w][i].key != k {
        ReachTransitive(g, w, g[w][i].key, k);
      }
    }
  }

  lemma {:induction false} KeptIffReachedAlone(g: Graph, w: Key, k: Key)
    requires w in g
    ensures Kept(g, w, k) <==> ReachedNotBelow(g, w, |g[w]|, k)
  {
    if Kept(g, w, k) {
      EdgeReaches(g, w, k);
      forall m | 0 <= m < |g[w]|
        ensures !Reaches(g, g[w][m].key, k)
      {
        assert Edge(g, w, g[w][m].key);
      }
    } else if Reaches(g, w, k) {
      var d := FirstStep(g, w, k);
      if ReachedFromDirect(g, w, k) {
        d :| Edge(g, w, d) && Reaches(g, d, k);
      }
      var m :| 0 <= m < |g[w]| && g[w][m].key == d;
    }
  }
}

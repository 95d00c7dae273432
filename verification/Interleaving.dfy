/** Traces of tasks that run side by side, and orderings between their events
    that hold under every schedule. */
module Interleaving {
  /** `t` is a schedule of the traces `ts`: it keeps the order within each of them. */
  predicate Merges<E(==)>(ts: seq<seq<E>>, t: seq<E>)
    decreases |t|
  {
    if t == [] then forall i :: 0 <= i < |ts| ==> ts[i] == []
    else exists i :: 0 <= i < |ts| && Next(ts[i], t[0]) && Merges(ts[i := ts[i][1..]], t[1..])
  }

  predicate Next<E(==)>(t: seq<E>, e: E) {
    t != [] && t[0] == e
  }

  /** Every event is allowed by the facts established before it. */
  predicate Ordered<E, F(==)>(allowed: (E, set<F>) -> bool, facts: E -> set<F>, seen: set<F>, t: seq<E>)
    decreases |t|
  {
    t == [] || (allowed(t[0], seen) && Ordered(allowed, facts, seen + facts(t[0]), t[1..]))
  }

  function Established<E, F(==)>(facts: E -> set<F>, t: seq<E>): set<F> {
    if t == [] then {} else facts(t[0]) + Established(facts, t[1..])
  }

  /** More facts never forbid an event. */
  ghost predicate Monotone<E(!new), F(!new)>(allowed: (E, set<F>) -> bool) {
    forall e, s, s' :: allowed(e, s) && s <= s' ==> allowed(e, s')
  }

  lemma {:induction false} OrderedWeakens<E(!new), F(!new)>(
    allowed: (E, set<F>) -> bool, facts: E -> set<F>, seen: set<F>, seen': set<F>, t: seq<E>)
    requires Monotone(allowed) && Ordered(allowed, facts, seen, t) && seen <= seen'
    ensures Ordered(allowed, facts, seen', t)
    decreases |t|
  {
    if t != [] {
      OrderedWeakens(allowed, facts, seen + facts(t[0]), seen' + facts(t[0]), t[1..]);
    }
  }

  lemma {:induction false} OrderedConcat<E, F>(
    allowed: (E, set<F>) -> bool, facts: E -> set<F>, seen: set<F>, t1: seq<E>, t2: seq<E>)
    requires Ordered(allowed, facts, seen, t1) && Ordered(allowed, facts, seen + Established(facts, t1), t2)
    ensures Ordered(allowed, facts, seen, t1 + t2)
    decreases |t1|
  {
    if t1 == [] {
      assert t1 + t2 == t2 && seen + Established(facts, t1) == seen;
    } else {
      assert (t1 + t2)[1..] == t1[1..] + t2;
      assert seen + Established(facts, t1) == (seen + facts(t1[0])) + Established(facts, t1[1..]);
      OrderedConcat(allowed, facts, seen + facts(t1[0]), t1[1..], t2);
    }
  }

  lemma {:induction false} EstablishedConcat<E, F>(facts: E -> set<F>, t1: seq<E>, t2: seq<E>)
    ensures Established(facts, t1 + t2) == Established(facts, t1) + Established(facts, t2)
  {
    if t1 == [] {
      assert t1 + t2 == t2;
    } else {
      assert (t1 + t2)[1..] == t1[1..] + t2;
      EstablishedConcat(facts, t1[1..], t2);
    }
  }

  /** Events that are well ordered within every task are well ordered in every schedule. */
  lemma {:induction false} MergeOrdered<E(!new), F(!new)>(
    allowed: (E, set<F>) -> bool, facts: E -> set<F>, seen: set<F>, ts: seq<seq<E>>, t: seq<E>)
    requires Monotone(allowed) && Merges(ts, t)
    requires forall i :: 0 <= i < |ts| ==> Ordered(allowed, facts, seen, ts[i])
    ensures Ordered(allowed, facts, seen, t)
    decreases |t|
  {
    if t != [] {
      var i :| 0 <= i < |ts| && Next(ts[i], t[0]) && Merges(ts[i := ts[i][1..]], t[1..]);
      var ts', seen' := ts[i := ts[i][1..]], seen + facts(t[0]);
      forall j | 0 <= j < |ts'|
        ensures Ordered(allowed, facts, seen', ts'[j])
      {
        if j != i {
          OrderedWeakens(allowed, facts, seen, seen', ts[j]);
        }
      }
      MergeOrdered(allowed, facts, seen', ts', t[1..]);
    }
  }

  /** A schedule establishes what each task establishes. */
  lemma {:induction false} MergeEstablishes<E, F>(facts: E -> set<F>, ts: seq<seq<E>>, t: seq<E>, j: nat)
    requires Merges(ts, t) && j < |ts|
    ensures Established(facts, ts[j]) <= Established(facts, t)
    decreases |t|
  {
    if t != [] {
      var i :| 0 <= i < |ts| && Next(ts[i], t[0]) && Merges(ts[i := ts[i][1..]], t[1..]);
      MergeEstablishes(facts, ts[i := ts[i][1..]], t[1..], j);
    }
  }

  lemma {:induction false} MergeOne<E>(ts: seq<seq<E>>, t: seq<E>)
    requires forall i :: 0 <= i < |ts| ==> ts[i] == []
    ensures Merges(ts + [t], t)
    decreases |t|
  {
    if t != [] {
      MergeOne(ts, t[1..]);
      assert (ts + [t])[|ts| := t[1..]] == ts + [t[1..]];
      assert Next((ts + [t])[|ts|], t[0]);
    }
  }

  /** Running one more task after the others is a schedule of them all. */
  lemma {:induction false} MergeAppend<E>(ts: seq<seq<E>>, t: seq<E>, last: seq<E>)
    requires Merges(ts, t)
    ensures Merges(ts + [last], t + last)
    decreases |t|
  {
    if t == [] {
      assert t + last == last;
      MergeOne(ts, last);
    } else {
      var i :| 0 <= i < |ts| && Next(ts[i], t[0]) && Merges(ts[i := ts[i][1..]], t[1..]);
      var ts' := ts[i := ts[i][1..]];
      MergeAppend(ts', t[1..], last);
      assert (ts + [last])[i := (ts + [last])[i][1..]] == ts' + [last];
      assert (t + last)[1..] == t[1..] + last;
      assert Next((ts + [last])[i], (t + last)[0]);
    }
  }

  /** The schedule that runs one task after the other. */
  function Concat<E>(ts: seq<seq<E>>): seq<E> {
    if ts == [] then [] else Concat(ts[..|ts| - 1]) + ts[|ts| - 1]
  }

  lemma {:induction false} MergeConcat<E>(ts: seq<seq<E>>)
    ensures Merges(ts, Concat(ts))
  {
    if ts != [] {
      var init, last := ts[..|ts| - 1], ts[|ts| - 1];
      MergeConcat(init);
      MergeAppend(init, Concat(init), last);
      assert init + [last] == ts;
    }
  }

  lemma {:induction false} ConcatEmpty<E>(ts: seq<seq<E>>)
    requires forall i :: 0 <= i < |ts| ==> ts[i] == []
    ensures Concat(ts) == []
  {
    if ts != [] {
      ConcatEmpty(ts[..|ts| - 1]);
    }
  }

  lemma {:induction false} ConcatOne<E>(ts: seq<seq<E>>, m: nat)
    requires m < |ts| && forall i :: 0 <= i < |ts| && i != m ==> ts[i] == []
    ensures Concat(ts) == ts[m]
  {
    if m == |ts| - 1 {
      ConcatEmpty(ts[..|ts| - 1]);
    } else {
      ConcatOne(ts[..|ts| - 1], m);
    }
  }

  /** Every event of a schedule is an event of one of the tasks. */
  lemma {:induction false} MergeMember<E>(ts: seq<seq<E>>, t: seq<E>, j: nat) returns (i: nat, l: nat)
    requires Merges(ts, t) && j < |t|
    ensures i < |ts| && l < |ts[i]| && ts[i][l] == t[j]
    decreases |t|
  {
    var first :| 0 <= first < |ts| && Next(ts[first], t[0]) && Merges(ts[first := ts[first][1..]], t[1..]);
    if j == 0 {
      return first, 0;
    }
    i, l := MergeMember(ts[first := ts[first][1..]], t[1..], j - 1);
    if i == first {
      l := l + 1;
    }
  }

  /** In an ordered trace each event comes after the facts that allow it. */
  lemma {:induction false} OrderedAt<E, F>(
    allowed: (E, set<F>) -> bool, facts: E -> set<F>, seen: set<F>, t: seq<E>, i: nat)
    requires Ordered(allowed, facts, seen, t) && i < |t|
    ensures allowed(t[i], seen + Established(facts, t[..i]))
    decreases |t|
  {
    if i == 0 {
      assert seen + Established(facts, t[..0]) == seen;
    } else {
      assert t[..i][1..] == t[1..][..i - 1];
      assert seen + Established(facts, t[..i]) == (seen + facts(t[0])) + Established(facts, t[1..][..i - 1]);
      OrderedAt(allowed, facts, seen + facts(t[0]), t[1..], i - 1);
    }
  }

  lemma {:induction false} EstablishedBy<E, F>(facts: E -> set<F>, t: seq<E>, f: F) returns (j: nat)
    requires f in Established(facts, t)
    ensures j < |t| && f in facts(t[j])
    decreases |t|
  {
    if f in facts(t[0]) {
      j := 0;
    } else {
      j := EstablishedBy(facts, t[1..], f);
      j := j + 1;
    }
  }
}

/** Weight rebalancing of the load balancer: weights are scaled so that they add up to 100. */
module LoadBalancer {
  const MAX_WEIGHT: int := 100

  datatype Server = Server(key: string, weight: int)

  /** The truncated product of a weight and the scale factor, in floating point: only
      known to be about 100 * weight / sum. */
  type Scale = (int, int) -> int

  function Total(pool: seq<Server>): int {
    if pool == [] then 0 else Total(pool[..|pool| - 1]) + pool[|pool| - 1].weight
  }

  predicate SameKeys(p: seq<Server>, q: seq<Server>) {
    |p| == |q| && forall i :: 0 <= i < |p| ==> p[i].key == q[i].key
  }

  function Abs(x: int): nat {
    if x < 0 then -x else x
  }

  function Sign(x: int): int {
    if x > 0 then 1 else if x < 0 then -1 else 0
  }

  function Min(a: int, b: int): int {
    if a < b then a else b
  }

  lemma {:induction false} TotalAppend(pool: seq<Server>, s: Server)
    ensures Total(pool + [s]) == Total(pool) + s.weight
  {
    assert (pool + [s])[..|pool|] == pool;
  }

  lemma {:induction false} TotalUpTo(pool: seq<Server>, i: nat)
    requires i < |pool|
    ensures Total(pool[..i + 1]) == Total(pool[..i]) + pool[i].weight
  {
    assert pool[..i + 1][..i] == pool[..i];
  }

  lemma {:induction false} TotalUpdate(pool: seq<Server>, i: nat, s: Server)
    requires i < |pool|
    ensures Total(pool[i := s]) == Total(pool) - pool[i].weight + s.weight
  {
    var n := |pool| - 1;
    if i < n {
      assert pool[i := s][..n] == pool[..n][i := s];
      TotalUpdate(pool[..n], i, s);
    } else {
      assert pool[i := s][..n] == pool[..n];
    }
  }

  predicate Has(pool: seq<Server>, key: string) {
    exists i :: 0 <= i < |pool| && pool[i].key == key
  }

  predicate AtMostOneApart(pool: seq<Server>) {
    forall i, j :: 0 <= i < |pool| && 0 <= j < |pool| ==> Abs(pool[i].weight - pool[j].weight) <= 1
  }

  predicate UniqueKeys(pool: seq<Server>) {
    forall i, j :: 0 <= i < j < |pool| ==> pool[i].key != pool[j].key
  }

  function Without(pool: seq<Server>, key: string): seq<Server> {
    if pool == [] then []
    else
      var last := pool[|pool| - 1];
      Without(pool[..|pool| - 1], key) + (if last.key == key then [] else [last])
  }

  function WeightOf(pool: seq<Server>, key: string): int
    requires Has(pool, key)
  {
    var last := pool[|pool| - 1];
    if last.key == key then last.weight else WeightOf(pool[..|pool| - 1], key)
  }

  function WeightIn(pool: seq<Server>, key: string): int {
    if Has(pool, key) then WeightOf(pool, key) else 0
  }

  lemma {:induction false} WithoutNone(pool: seq<Server>, key: string)
    requires !Has(pool, key)
    ensures Without(pool, key) == pool
  {
    if pool != [] {
      WithoutNone(pool[..|pool| - 1], key);
    }
  }

  lemma {:induction false} TotalWithout(pool: seq<Server>, key: string)
    requires Has(pool, key)
    ensures UniqueKeys(pool) ==> Total(Without(pool, key)) == Total(pool) - WeightOf(pool, key)
  {
    var init, last := pool[..|pool| - 1], pool[|pool| - 1];
    if UniqueKeys(pool) {
      if last.key == key {
        WithoutNone(init, key);
        assert init + [] == init;
      } else {
        TotalWithout(init, key);
        assert (Without(init, key) + [last])[..|Without(init, key)|] == Without(init, key);
      }
    }
  }

  lemma {:induction false} PutTotal(pool: seq<Server>, srv: Server)
    ensures UniqueKeys(pool) ==>
              Total(Without(pool, srv.key) + [srv]) == Total(pool) + srv.weight - WeightIn(pool, srv.key)
  {
    TotalAppend(Without(pool, srv.key), srv);
    if Has(pool, srv.key) {
      TotalWithout(pool, srv.key);
    } else {
      WithoutNone(pool, srv.key);
    }
  }

  // ---------------------------------------------------------------- the three branches

  /** Every weight scaled. */
  function Scaled(pool: seq<Server>, sum: int, scale: Scale): (r: seq<Server>)
    ensures SameKeys(r, pool) && forall i :: 0 <= i < |r| ==> r[i].weight == scale(pool[i].weight, sum)
  {
    seq(|pool|, i requires 0 <= i < |pool| => pool[i].(weight := scale(pool[i].weight, sum)))
  }

  /** The first |delta| servers moved by one towards the goal. */
  function Corrected(pool: seq<Server>, delta: int): (r: seq<Server>)
    ensures SameKeys(r, pool)
  {
    seq(|pool|, i requires 0 <= i < |pool| =>
      if i < Abs(delta) then pool[i].(weight := pool[i].weight + Sign(delta)) else pool[i])
  }

  /** An even split: the first servers get the remainder. */
  function Even(pool: seq<Server>): (r: seq<Server>)
    ensures SameKeys(r, pool)
  {
    seq(|pool|, i requires 0 <= i < |pool| =>
      pool[i].(weight := MAX_WEIGHT / |pool| + (if i < MAX_WEIGHT % |pool| then 1 else 0)))
  }

  /** The weights after rebalancing, whatever the counter says. */
  function Rebalanced(pool: seq<Server>, counter: int, scale: Scale): seq<Server> {
    if counter == MAX_WEIGHT || pool == [] then pool
    else if counter == 0 then Even(pool)
    else Rescaled(pool, counter, scale)
  }

  class LoadBalancer {
    var pool: seq<Server>
    var sumWeight: int

    /** The counter agrees with the weights. */
    ghost predicate Consistent()
      reads this
    {
      sumWeight == Total(pool)
    }

    constructor ()
      ensures pool == [] && Consistent()
    {
      pool, sumWeight := [], 0;
    }

    /** Replaces a server of the same key. From a true, non-zero total the weights are
        rebalanced to 100 and the counter stays true. */
    method AddServer(srv: Server, scale: Scale)
      modifies this
      ensures SameKeys(pool, Without(old(pool), srv.key) + [srv])
      ensures var counter := old(sumWeight) + srv.weight - WeightIn(old(pool), srv.key);
              pool == Rebalanced(Without(old(pool), srv.key) + [srv], counter, scale)
      ensures var total := Total(Without(old(pool), srv.key) + [srv]);
              old(Consistent()) && UniqueKeys(old(pool)) && total != 0 && Near(scale, total) ==>
                Consistent() && sumWeight == MAX_WEIGHT
      ensures old(Consistent()) && UniqueKeys(old(pool)) && Total(Without(old(pool), srv.key) + [srv]) == 0 ==>
                Total(pool) == MAX_WEIGHT && AtMostOneApart(pool)
    {
      Put(srv);
      RebalanceAll(scale);
    }

    /** Puts a server into the pool, keeping the counter true. */
    method Put(srv: Server)
      modifies this
      ensures pool == Without(old(pool), srv.key) + [srv]
      ensures sumWeight == old(sumWeight) + srv.weight - WeightIn(old(pool), srv.key)
      ensures old(Consistent()) && UniqueKeys(old(pool)) ==> Consistent()
    {
      PutTotal(pool, srv);
      if Has(pool, srv.key) {
        sumWeight := sumWeight - WeightOf(pool, srv.key);
        pool := Without(pool, srv.key);
      } else {
        WithoutNone(pool, srv.key);
      }
      pool := pool + [srv];
      sumWeight := sumWeight + srv.weight;
    }

    /** Rebalancing from a true, non-zero total. */
    method RebalanceAll(scale: Scale)
      modifies this
      ensures SameKeys(pool, old(pool)) && pool == Rebalanced(old(pool), old(sumWeight), scale)
      ensures old(Consistent()) && Total(old(pool)) != 0 && Near(scale, Total(old(pool))) ==>
                Consistent() && sumWeight == MAX_WEIGHT
      ensures old(sumWeight) == 0 && old(pool) != [] ==> Total(pool) == MAX_WEIGHT && AtMostOneApart(pool)
    {
      if pool != [] {
        EvenSplitIsExact(pool);
      }
      if Consistent() && Total(pool) != 0 && Near(scale, Total(pool)) {
        RebalanceReachesGoal(pool, scale);
      }
      Rebalance(scale);
    }

    /** The weight subtracted is the one the caller's server has. */
    method RemoveServer(srv: Server, scale: Scale)
      modifies this
      ensures !Has(old(pool), srv.key) ==> pool == old(pool) && sumWeight == old(sumWeight)
      ensures SameKeys(pool, Without(old(pool), srv.key))
      ensures Has(old(pool), srv.key) ==>
                pool == Rebalanced(Without(old(pool), srv.key), old(sumWeight) - srv.weight, scale)
      ensures var total := Total(Without(old(pool), srv.key));
              Has(old(pool), srv.key) && srv.weight == WeightOf(old(pool), srv.key)
              && old(Consistent()) && UniqueKeys(old(pool)) && total != 0 && Near(scale, total) ==>
                Consistent() && sumWeight == MAX_WEIGHT
      ensures var rest := Without(old(pool), srv.key);
              Has(old(pool), srv.key) && srv.weight == WeightOf(old(pool), srv.key)
              && old(Consistent()) && UniqueKeys(old(pool)) && Total(rest) == 0 && rest != [] ==>
                Total(pool) == MAX_WEIGHT && AtMostOneApart(pool)
    {
      if !Has(pool, srv.key) {
        WithoutNone(pool, srv.key);
        return;
      }
      Drop(srv);
      RebalanceAll(scale);
    }

    /** Takes a server out, and the caller's weight of it off the counter. */
    method Drop(srv: Server)
      requires Has(pool, srv.key)
      modifies this
      ensures pool == Without(old(pool), srv.key) && sumWeight == old(sumWeight) - srv.weight
      ensures old(Consistent()) && UniqueKeys(old(pool)) && srv.weight == WeightOf(old(pool), srv.key) ==> Consistent()
    {
      TotalWithout(pool, srv.key);
      pool := Without(pool, srv.key);
      sumWeight := sumWeight - srv.weight;
    }

    method Rebalance(scale: Scale)
      modifies this
      ensures SameKeys(pool, old(pool))
      ensures old(sumWeight) == MAX_WEIGHT || old(pool) == [] ==> pool == old(pool) && sumWeight == old(sumWeight)
      ensures old(sumWeight) == 0 && old(pool) != [] ==>
                && pool == Even(old(pool))
                && sumWeight == |pool| * (MAX_WEIGHT / |pool|)
      ensures old(sumWeight) != MAX_WEIGHT && old(sumWeight) != 0 && old(pool) != [] ==>
                && pool == Rescaled(old(pool), old(sumWeight), scale)
                && sumWeight == Total(pool)
    {
      if sumWeight == MAX_WEIGHT {
        return;
      }
      var poolSize := |pool|;
      if poolSize == 0 {
        return;
      }
      if sumWeight == 0 {
        SplitEvenly();
        return;
      }
      ScaleAll(scale);
      var delta := MAX_WEIGHT - sumWeight;
      ghost var scaled := pool;
      CorrectBy(delta);
      assert pool == Corrected(scaled, delta);
    }

    method SplitEvenly()
      requires pool != []
      modifies this
      ensures pool == Even(old(pool)) && sumWeight == old(sumWeight) + |pool| * (MAX_WEIGHT / |pool|)
    {
      var n := |pool|;
      var weightEach, remainder := MAX_WEIGHT / n, MAX_WEIGHT % n;
      ghost var goal, share := Even(pool), remainder;
      for i := 0 to n
        invariant |pool| == n && pool[..i] == goal[..i] && pool[i..] == old(pool)[i..]
        invariant sumWeight == old(sumWeight) + i * weightEach
        invariant remainder == if i < share then share - i else 0
      {
        var w := weightEach;
        assert pool[i] == pool[i..][0] && (i + 1) * weightEach == i * weightEach + weightEach;
        sumWeight := sumWeight + weightEach;
        if remainder > 0 {
          w := w + 1;
          remainder := remainder - 1;
        }
        pool := pool[i := pool[i].(weight := w)];
        assert pool[i] == goal[i];
      }
      assert goal[..n] == goal && pool[..n] == pool;
    }

    method ScaleAll(scale: Scale)
      modifies this
      ensures pool == Scaled(old(pool), old(sumWeight), scale) && sumWeight == Total(pool)
    {
      ghost var goal := Scaled(pool, sumWeight, scale);
      var sum := sumWeight;
      sumWeight := 0;
      for i := 0 to |pool|
        invariant |pool| == |goal| && pool[..i] == goal[..i] && pool[i..] == old(pool)[i..]
        invariant sumWeight == Total(goal[..i])
      {
        assert pool[i] == pool[i..][0];
        pool := pool[i := pool[i].(weight := scale(pool[i].weight, sum))];
        assert pool[i] == goal[i];
        TotalUpTo(goal, i);
        sumWeight := sumWeight + pool[i].weight;
      }
      assert goal[..|goal|] == goal && pool[..|pool|] == pool;
    }

    method CorrectBy(delta: int)
      requires Consistent()
      modifies this
      ensures pool == Corrected(old(pool), delta) && Consistent()
    {
      ghost var goal := Corrected(pool, delta);
      var left := delta;
      var i := 0;
      while i < |pool| && left != 0
        invariant 0 <= i <= |pool| == |goal| && Consistent()
        invariant forall j :: 0 <= j < |pool| ==> pool[j] == if j < i then goal[j] else old(pool)[j]
        invariant if delta >= 0 then left == delta - i >= 0 else left == delta + i <= 0
        decreases |pool| - i
      {
        var step := if left > 0 then 1 else -1;
        TotalUpdate(pool, i, pool[i].(weight := pool[i].weight + step));
        pool := pool[i := pool[i].(weight := pool[i].weight + step)];
        sumWeight := sumWeight + step;
        left := left - step;
        i := i + 1;
      }
      assert forall j :: i <= j < |pool| ==> goal[j] == old(pool)[j];
      assert pool == goal;
    }
  }

  function Rescaled(pool: seq<Server>, sum: int, scale: Scale): seq<Server> {
    var scaled := Scaled(pool, sum, scale);
    Corrected(scaled, MAX_WEIGHT - Total(scaled))
  }

  // ---------------------------------------------------------------- the goal is met

  /** Scaling by `sum` is off by at most one unit, in either direction. */
  ghost predicate Near(scale: Scale, sum: int) {
    forall w :: Abs(scale(w, sum) * sum - MAX_WEIGHT * w) <= Abs(sum)
  }

  /** Scaling truncates: never negative or above the exact share, and at most one unit below it. */
  ghost predicate Truncates(scale: Scale, sum: int) {
    forall w :: w >= 0 ==> 0 <= scale(w, sum) && 0 <= MAX_WEIGHT * w - scale(w, sum) * sum <= sum
  }

  lemma {:induction false} ScaledTotal(pool: seq<Server>, sum: int, scale: Scale)
    requires Near(scale, sum)
    ensures Abs(Total(Scaled(pool, sum, scale)) * sum - MAX_WEIGHT * Total(pool)) <= |pool| * Abs(sum)
  {
    if pool != [] {
      var n := |pool| - 1;
      var w := pool[n].weight;
      var scaled := Scaled(pool, sum, scale);
      assert scaled[..n] == Scaled(pool[..n], sum, scale);
      ScaledTotal(pool[..n], sum, scale);
      var before, q := Total(scaled[..n]), scale(w, sum);
      Distribute(before, q, sum);
      Distribute(n, 1, Abs(sum));
      Triangle(before * sum - MAX_WEIGHT * Total(pool[..n]), q * sum - MAX_WEIGHT * w, n * Abs(sum), Abs(sum));
    }
  }

  lemma {:induction false} CancelFactor(x: int, n: nat, sum: int)
    requires sum != 0 && Abs(x * sum) <= n * Abs(sum)
    ensures Abs(x) <= n
  {}

  lemma {:induction false} Distribute(a: int, b: int, sum: int)
    ensures (a + b) * sum == a * sum + b * sum
    ensures (a - b) * sum == a * sum - b * sum
  {}

  lemma {:induction false} Triangle(x: int, y: int, a: int, b: int)
    requires Abs(x) <= a && Abs(y) <= b
    ensures Abs(x + y) <= a + b
  {}

  lemma {:induction false} CorrectedTotal(pool: seq<Server>, delta: int)
    ensures Total(Corrected(pool, delta)) == Total(pool) + Sign(delta) * Min(|pool|, Abs(delta))
  {
    if pool != [] {
      var n := |pool| - 1;
      assert Corrected(pool, delta)[..n] == Corrected(pool[..n], delta);
      CorrectedTotal(pool[..n], delta);
    }
  }

  /** After scaling, the weights add up to 100 exactly when the rounding errors together
      do not exceed the number of servers. */
  lemma {:induction false} RescaledTotal(pool: seq<Server>, sum: int, scale: Scale)
    ensures var delta := MAX_WEIGHT - Total(Scaled(pool, sum, scale));
            Total(Rescaled(pool, sum, scale)) == MAX_WEIGHT <==> Abs(delta) <= |pool|
  {
    var scaled := Scaled(pool, sum, scale);
    CorrectedTotal(scaled, MAX_WEIGHT - Total(scaled));
  }

  /** With a true counter that is always so: one correction pass absorbs the truncation. */
  lemma {:induction false} RebalanceReachesGoal(pool: seq<Server>, scale: Scale)
    requires Total(pool) != 0 && Near(scale, Total(pool))
    ensures Total(Rescaled(pool, Total(pool), scale)) == MAX_WEIGHT
  {
    var sum := Total(pool);
    var q := Total(Scaled(pool, sum, scale));
    ScaledTotal(pool, sum, scale);
    Distribute(q, MAX_WEIGHT, sum);
    CancelFactor(q - MAX_WEIGHT, |pool|, sum);
    RescaledTotal(pool, sum, scale);
  }

  lemma {:induction false} TruncatedTotal(pool: seq<Server>, sum: int, scale: Scale)
    requires Truncates(scale, sum) && forall i :: 0 <= i < |pool| ==> pool[i].weight >= 0
    ensures Total(Scaled(pool, sum, scale)) * sum <= MAX_WEIGHT * Total(pool)
  {
    if pool != [] {
      var n := |pool| - 1;
      var w, scaled := pool[n].weight, Scaled(pool, sum, scale);
      assert scaled[..n] == Scaled(pool[..n], sum, scale);
      TruncatedTotal(pool[..n], sum, scale);
      Distribute(Total(scaled[..n]), scale(w, sum), sum);
    }
  }

  /** When scaling truncates, every server ends within one unit of its exact share
      100 * weight / total, and no weight becomes negative. */
  lemma {:induction false} RebalanceIsFair(pool: seq<Server>, scale: Scale, i: nat)
    requires Total(pool) > 0 && Truncates(scale, Total(pool)) && i < |pool|
    requires forall j :: 0 <= j < |pool| ==> pool[j].weight >= 0
    ensures var sum := Total(pool);
            var w := Rescaled(pool, sum, scale)[i].weight;
            w >= 0 && Abs(w * sum - MAX_WEIGHT * pool[i].weight) <= sum
  {
    var sum := Total(pool);
    var scaled := Scaled(pool, sum, scale);
    NothingToTakeBack(pool, scale);
    var final := Corrected(scaled, MAX_WEIGHT - Total(scaled))[i].weight;
    CloseToShare(scaled[i].weight, final, pool[i].weight, sum);
  }

  lemma {:induction false} NothingToTakeBack(pool: seq<Server>, scale: Scale)
    requires Total(pool) > 0 && Truncates(scale, Total(pool))
    requires forall j :: 0 <= j < |pool| ==> pool[j].weight >= 0
    ensures Total(Scaled(pool, Total(pool), scale)) <= MAX_WEIGHT
  {
    var sum := Total(pool);
    var q := Total(Scaled(pool, sum, scale));
    TruncatedTotal(pool, sum, scale);
    Distribute(MAX_WEIGHT, q, sum);
    NonNegativeFactor(MAX_WEIGHT - q, sum);
  }

  lemma {:induction false} CloseToShare(q: int, final: int, w: int, sum: int)
    requires 0 <= MAX_WEIGHT * w - q * sum <= sum && (final == q || final == q + 1)
    ensures Abs(final * sum - MAX_WEIGHT * w) <= sum
  {
    Distribute(q, 1, sum);
  }

  lemma {:induction false} NonNegativeFactor(x: int, sum: int)
    requires sum > 0 && x * sum >= 0
    ensures x >= 0
  {}

  /** Exact truncation is such a scaling. */
  lemma {:induction false} ExactDivisionTruncates(sum: int)
    requires sum > 0
    ensures Truncates((w, s) => if s > 0 then MAX_WEIGHT * w / s else 0, sum)
    ensures Near((w, s) => if s > 0 then MAX_WEIGHT * w / s else 0, sum)
  {
    var scale := (w: int, s: int) => if s > 0 then MAX_WEIGHT * w / s else 0;
    forall w: int
      ensures 0 <= MAX_WEIGHT * w - scale(w, sum) * sum <= sum
    {
      DivisionBounds(MAX_WEIGHT * w, sum);
    }
    assert forall w :: w >= 0 ==> scale(w, sum) >= 0;
  }

  lemma {:induction false} DivisionBounds(a: int, b: int)
    requires b > 0
    ensures 0 <= a - (a / b) * b < b
  {
    assert a == (a / b) * b + a % b;
  }

  lemma {:induction false} EvenTotalUpTo(pool: seq<Server>, k: nat)
    requires pool != [] && k <= |pool|
    ensures Total(Even(pool)[..k]) == k * (MAX_WEIGHT / |pool|) + Min(k, MAX_WEIGHT % |pool|)
  {
    if k > 0 {
      EvenTotalUpTo(pool, k - 1);
      TotalUpTo(Even(pool), k - 1);
      assert k * (MAX_WEIGHT / |pool|) == (k - 1) * (MAX_WEIGHT / |pool|) + MAX_WEIGHT / |pool|;
    }
  }

  /** The even split adds up to 100 with weights at most one apart. The counter it leaves
      behind is right exactly when the number of servers divides 100. */
  lemma {:induction false} EvenSplitIsExact(pool: seq<Server>)
    requires pool != []
    ensures Total(Even(pool)) == MAX_WEIGHT
    ensures AtMostOneApart(Even(pool))
    ensures |pool| * (MAX_WEIGHT / |pool|) == Total(Even(pool)) <==> MAX_WEIGHT % |pool| == 0
  {
    var n := |pool|;
    EvenTotalUpTo(pool, n);
    assert Even(pool)[..n] == Even(pool);
    DivisionBounds(MAX_WEIGHT, n);
    assert MAX_WEIGHT == (MAX_WEIGHT / n) * n + MAX_WEIGHT % n;
    assert n * (MAX_WEIGHT / n) == (MAX_WEIGHT / n) * n;
  }

  // ---------------------------------------------------------------- a counter that is not true

  /** When rebalancing reaches 100 from any counter, true or not: it must not take the weights
      for balanced if they are not, and the correction pass must be able to make up for what
      the scaling misses. */
  predicate ReachesGoal(pool: seq<Server>, counter: int, scale: Scale) {
    && pool != []
    && (counter == MAX_WEIGHT ==> Total(pool) == MAX_WEIGHT)
    && (counter != MAX_WEIGHT && counter != 0 ==> Abs(MAX_WEIGHT - Total(Scaled(pool, counter, scale))) <= |pool|)
  }

  lemma {:induction false} RebalancedTotal(pool: seq<Server>, counter: int, scale: Scale)
    ensures Total(Rebalanced(pool, counter, scale)) == MAX_WEIGHT <==> ReachesGoal(pool, counter, scale)
  {
    RescaledTotal(pool, counter, scale);
    if pool != [] {
      EvenSplitIsExact(pool);
    }
  }

  /** The scaled weights of the first `i` servers of an even split. */
  function EvenScaledUpTo(n: nat, i: nat, counter: int, scale: Scale): int
    requires n > 0
  {
    var each, more := scale(MAX_WEIGHT / n, counter), scale(MAX_WEIGHT / n + 1, counter);
    var r := MAX_WEIGHT % n;
    if i <= r then i * more else r * more + (i - r) * each
  }

  lemma {:induction false} EvenScaledNext(n: nat, i: nat, counter: int, scale: Scale)
    requires n > 0
    ensures EvenScaledUpTo(n, i + 1, counter, scale)
         == EvenScaledUpTo(n, i, counter, scale) + scale(MAX_WEIGHT / n + (if i < MAX_WEIGHT % n then 1 else 0), counter)
  {
    var each, more, r := scale(MAX_WEIGHT / n, counter), scale(MAX_WEIGHT / n + 1, counter), MAX_WEIGHT % n;
    Distribute(i, 1, more);
    Distribute(i - r, 1, each);
  }

  lemma {:induction false} EvenScaledTotal(pool: seq<Server>, i: nat, counter: int, scale: Scale)
    requires pool != [] && i <= |pool|
    ensures Total(Scaled(Even(pool), counter, scale)[..i]) == EvenScaledUpTo(|pool|, i, counter, scale)
  {
    if i > 0 {
      EvenScaledTotal(pool, i - 1, counter, scale);
      TotalUpTo(Scaled(Even(pool), counter, scale), i - 1);
      EvenScaledNext(|pool|, i - 1, counter, scale);
    }
  }

  /** The operation after an even split among `n` servers: adding one more of weight `w`
      reaches 100 exactly under a condition on `n` and `w` alone. */
  predicate AddReachesGoal(n: nat, w: int, scale: Scale)
    requires n > 0
  {
    AddReachesGoalFrom(n, w, n * (MAX_WEIGHT / n) + w, scale)
  }

  predicate AddReachesGoalFrom(n: nat, w: int, counter: int, scale: Scale)
    requires n > 0
  {
    if counter == MAX_WEIGHT then w == 0
    else counter == 0 || Abs(MAX_WEIGHT - (EvenScaledUpTo(n, n, counter, scale) + scale(w, counter))) <= n + 1
  }

  lemma {:induction false} AddAfterEvenSplit(pool: seq<Server>, srv: Server, scale: Scale)
    requires pool != []
    ensures var counter := |pool| * (MAX_WEIGHT / |pool|) + srv.weight;
            Total(Rebalanced(Even(pool) + [srv], counter, scale)) == MAX_WEIGHT <==>
              AddReachesGoal(|pool|, srv.weight, scale)
  {
    AddFrom(pool, srv, |pool| * (MAX_WEIGHT / |pool|) + srv.weight, scale);
  }

  lemma {:induction false} AddFrom(pool: seq<Server>, srv: Server, counter: int, scale: Scale)
    requires pool != []
    ensures Total(Rebalanced(Even(pool) + [srv], counter, scale)) == MAX_WEIGHT <==>
              AddReachesGoalFrom(|pool|, srv.weight, counter, scale)
  {
    AddTotals(pool, srv, counter, scale);
    RebalancedTotal(Even(pool) + [srv], counter, scale);
  }

  lemma {:induction false} AddTotals(pool: seq<Server>, srv: Server, counter: int, scale: Scale)
    requires pool != []
    ensures Total(Even(pool) + [srv]) == MAX_WEIGHT + srv.weight
    ensures Total(Scaled(Even(pool) + [srv], counter, scale))
         == EvenScaledUpTo(|pool|, |pool|, counter, scale) + scale(srv.weight, counter)
  {
    EvenSplitIsExact(pool);
    TotalAppend(Even(pool), srv);
    var scaled := Scaled(Even(pool), counter, scale);
    EvenScaledTotal(pool, |pool|, counter, scale);
    assert scaled[..|pool|] == scaled;
    ScaledAppend(Even(pool), srv, counter, scale);
    TotalAppend(scaled, srv.(weight := scale(srv.weight, counter)));
  }

  lemma {:induction false} ScaledAppend(pool: seq<Server>, srv: Server, counter: int, scale: Scale)
    ensures Scaled(pool + [srv], counter, scale)
         == Scaled(pool, counter, scale) + [srv.(weight := scale(srv.weight, counter))]
  {}

  function ExactScale(): Scale {
    (w, s) => if s > 0 then MAX_WEIGHT * w / s else 0
  }

  /** After an even split among 101 servers the counter is 0, and adding weight 5 misses 100. */
  lemma {:induction false} HundredAndOneServersMiss()
    ensures !AddReachesGoal(101, 5, ExactScale())
  {
    var scale := ExactScale();
    assert scale(1, 5) == 20 && scale(0, 5) == 0 && scale(5, 5) == 100;
    assert EvenScaledUpTo(101, 101, 5, scale) == 2000;
  }
}

/** The metrics buffer: a ring of the latest samples of a period, with a minimum distance
    in time between samples. */
module MetricsPeriod {
  import opened Common

  const MAX_ENTRIES: nat := 100

  const SECOND: int := 1_000_000_000

  function Max(a: int, b: int): int {
    if a > b then a else b
  }

  /** The distance between samples that spreads a full buffer over the duration. */
  function IntervalFor(duration: int): int {
    Max(duration / (MAX_ENTRIES as int), SECOND)
  }

  /** A full buffer spans the duration as well as whole units allow, but samples are never
      less than a second apart. */
  lemma {:induction false} IntervalsFillTheDuration(duration: int)
    ensures var interval := IntervalFor(duration);
            && interval >= 1_000_000_000
            && (duration >= 100 * 1_000_000_000 ==> 100 * interval <= duration < 100 * (interval + 1))
            && (duration < 100 * 1_000_000_000 ==> interval == 1_000_000_000)
  {}

  /** A sample and the time it counts for. */
  datatype Sample<T> = Sample(time: int, info: T)

  /** The last `n` elements, or all of them. */
  function Last<T>(s: seq<T>, n: nat): seq<T> {
    if |s| <= n then s else s[|s| - n..]
  }

  function Infos<T>(s: seq<Sample<T>>): seq<T> {
    seq(|s|, i requires 0 <= i < |s| => s[i].info)
  }

  /** Samples are at least `interval` apart. */
  predicate Spaced<T>(s: seq<Sample<T>>, interval: int) {
    forall i :: 0 < i < |s| ==> s[i].time - s[i - 1].time >= interval
  }

  lemma {:induction false} NextSlot(n: nat)
    ensures (n + 1) % MAX_ENTRIES == if n % MAX_ENTRIES + 1 == MAX_ENTRIES then 0 else n % MAX_ENTRIES + 1
  {}

  /** Two of the latest samples never share a slot. */
  lemma {:induction false} SlotsDiffer(i: nat, n: nat)
    requires i < n < i + MAX_ENTRIES
    ensures i % MAX_ENTRIES != n % MAX_ENTRIES
  {}

  /** The latest samples are at their slots. */
  ghost predicate AtSlots<T>(ring: seq<T>, history: seq<Sample<T>>)
    requires |ring| == MAX_ENTRIES
  {
    forall i :: 0 <= i < |history| && |history| - MAX_ENTRIES <= i ==> ring[i % MAX_ENTRIES] == history[i].info
  }

  lemma {:induction false} NextAtSlot<T>(ring: seq<T>, history: seq<Sample<T>>, next: Sample<T>)
    requires |ring| == MAX_ENTRIES && AtSlots(ring, history)
    ensures AtSlots(ring[|history| % MAX_ENTRIES := next.info], history + [next])
  {
    var n := |history|;
    forall i | 0 <= i < n && n + 1 - MAX_ENTRIES <= i
      ensures ring[n % MAX_ENTRIES := next.info][i % MAX_ENTRIES] == history[i].info
    {
      SlotsDiffer(i, n);
    }
  }

  class Entries<T(0)> {
    const entries: array<T>
    var index: nat
    var count: nat
    var interval: int
    var lastAdd: int
    ghost var history: seq<Sample<T>>   // all samples accepted so far

    ghost predicate Valid()
      reads this, entries
    {
      && entries.Length == MAX_ENTRIES
      && index == |history| % MAX_ENTRIES
      && count == (if |history| < MAX_ENTRIES then |history| else MAX_ENTRIES)
      && AtSlots(entries[..], history)
      && (history != [] ==> lastAdd == history[|history| - 1].time)
    }

    /** What the buffer stands for. */
    ghost function Contents(): seq<T>
      reads this
    {
      Last(Infos(history), MAX_ENTRIES)
    }

    constructor (duration: int, now: int)
      ensures Valid() && fresh(entries) && history == []
      ensures interval == IntervalFor(duration) && lastAdd == now
    {
      entries := new T[MAX_ENTRIES];
      index, count, interval, lastAdd, history := 0, 0, IntervalFor(duration), now, [];
    }

    /** Takes a sample unless it comes too soon after the last one. */
    method Add(now: int, info: T)
      requires Valid()
      modifies this`index, this`count, this`lastAdd, this`history, entries
      ensures Valid()
      ensures history == if now - old(lastAdd) < interval then old(history) else old(history) + [Sample(now, info)]
      ensures lastAdd == if now - old(lastAdd) < interval then old(lastAdd) else now
      ensures old(Spaced(history, interval)) ==> Spaced(history, interval)
    {
      if now - lastAdd < interval {
        return;
      }
      AddWithTime(now, info);
    }

    method AddWithTime(timestamp: int, info: T)
      requires Valid()
      modifies this`index, this`count, this`lastAdd, this`history, entries
      ensures Valid() && history == old(history) + [Sample(timestamp, info)] && lastAdd == timestamp
    {
      ghost var before := entries[..];
      NextAtSlot(before, history, Sample(timestamp, info));
      NextSlot(|history|);
      entries[index] := info;
      assert entries[..] == before[index := info];
      index := (index + 1) % MAX_ENTRIES;
      if count < MAX_ENTRIES {
        count := count + 1;
      }
      lastAdd := timestamp;
      history := history + [Sample(timestamp, info)];
    }

    /** The samples in the order they were taken. */
    method Get() returns (res: seq<T>)
      requires Valid()
      ensures res == Contents()
    {
      RingHoldsLatest(entries[..], history);
      if count < MAX_ENTRIES {
        res := entries[..count];
        assert res == entries[..][..count];
      } else {
        res := entries[index..] + entries[..index];
        assert res == entries[..][index..] + entries[..][..index];
      }
    }

    method ValidateInterval(duration: int) returns (ok: bool)
      ensures ok <==> interval == IntervalFor(duration)
    {
      return interval == IntervalFor(duration);
    }

    method FixInterval(duration: int)
      modifies this`interval
      ensures interval == IntervalFor(duration)
    {
      interval := IntervalFor(duration);
    }

    /** What is saved: the samples in order, and the interval. */
    method Save() returns (saved: seq<T>, savedInterval: int)
      requires Valid()
      ensures saved == Contents() && savedInterval == interval
    {
      saved := Get();
      savedInterval := interval;
    }

    /** Adds saved samples, spaced backwards from now; at most as many as fit. */
    method Load(saved: seq<T>, savedInterval: int, now: int)
      requires Valid()
      modifies this`index, this`count, this`lastAdd, this`history, this`interval, entries
      ensures Valid()
      ensures saved == [] ==> history == old(history) && interval == old(interval)
      ensures saved != [] ==> interval == savedInterval && lastAdd == now
      ensures Infos(history) == Infos(old(history)) + First(saved, MAX_ENTRIES)
      ensures old(history) == [] ==> Spaced(history, savedInterval)
    {
      if |saved| == 0 {
        assert Infos(history) == Infos(history) + [];
        return;
      }
      var taken := First(saved, MAX_ENTRIES);
      interval := savedInterval;
      AddStamped(taken, now);
      StampedInfos(old(history), taken, now, savedInterval);
      EvenSteps(taken, now, savedInterval);
    }

    method AddStamped(taken: seq<T>, now: int)
      requires Valid() && taken != []
      modifies this`index, this`count, this`lastAdd, this`history, entries
      ensures Valid() && history == old(history) + Stamped(taken, now, interval)
      ensures lastAdd == TimeAt(now, |taken|, |taken| - 1, interval)
    {
      ghost var added := Stamped(taken, now, interval);
      for i := 0 to |taken|
        invariant Valid() && history == old(history) + added[..i]
        invariant i > 0 ==> lastAdd == TimeAt(now, |taken|, i - 1, interval)
      {
        AddWithTime(TimeAt(now, |taken|, i, interval), taken[i]);
        assert added[..i + 1] == added[..i] + [added[i]];
      }
      assert added[..|taken|] == added;
    }
  }

  /** When the `i`-th of `n` loaded samples is taken to have been added. */
  function TimeAt(now: int, n: nat, i: nat, interval: int): int {
    now - (n - 1 - i) * interval
  }

  function Stamped<T>(taken: seq<T>, now: int, interval: int): seq<Sample<T>> {
    seq(|taken|, i requires 0 <= i < |taken| => Sample(TimeAt(now, |taken|, i, interval), taken[i]))
  }

  function First<T>(s: seq<T>, n: nat): seq<T> {
    if |s| <= n then s else s[..n]
  }

  lemma {:induction false} StampedInfos<T>(before: seq<Sample<T>>, taken: seq<T>, now: int, interval: int)
    ensures Infos(before + Stamped(taken, now, interval)) == Infos(before) + taken
    ensures [] + Stamped(taken, now, interval) == Stamped(taken, now, interval)
    ensures taken != [] ==> TimeAt(now, |taken|, |taken| - 1, interval) == now
  {}

  lemma {:induction false} EvenSteps<T>(taken: seq<T>, now: int, interval: int)
    ensures Spaced(Stamped(taken, now, interval), interval)
  {
    var n := |taken|;
    forall i | 0 < i < n
      ensures TimeAt(now, n, i, interval) - TimeAt(now, n, i - 1, interval) >= interval
    {
      assert (n - 1 - (i - 1)) * interval == (n - 1 - i) * interval + interval;
    }
  }

  /** Reading a full ring from its write position: where the j-th oldest sample is. */
  lemma {:induction false} Rotate(n: nat, j: nat)
    requires n >= MAX_ENTRIES && j < MAX_ENTRIES
    ensures var index := n % MAX_ENTRIES;
            (n - MAX_ENTRIES + j) % MAX_ENTRIES == if index + j < MAX_ENTRIES then index + j else index + j - MAX_ENTRIES
  {}

  /** A ring in which the latest samples are at their slots holds exactly those samples. */
  lemma {:induction false} RingHoldsLatest<T>(ring: seq<T>, history: seq<Sample<T>>)
    requires |ring| == MAX_ENTRIES && AtSlots(ring, history)
    ensures |history| < MAX_ENTRIES ==> ring[..|history|] == Infos(history)
    ensures |history| >= MAX_ENTRIES ==>
              var index := |history| % MAX_ENTRIES;
              ring[index..] + ring[..index] == Last(Infos(history), MAX_ENTRIES)
  {
    var n := |history|;
    if n < MAX_ENTRIES {
      forall i | 0 <= i < n
        ensures ring[i] == history[i].info
      {
        assert i % MAX_ENTRIES == i;
      }
    } else {
      var index := n % MAX_ENTRIES;
      var res := ring[index..] + ring[..index];
      forall j | 0 <= j < MAX_ENTRIES
        ensures res[j] == history[n - MAX_ENTRIES + j].info
      {
        Rotate(n, j);
        assert ring[(n - MAX_ENTRIES + j) % MAX_ENTRIES] == history[n - MAX_ENTRIES + j].info;
      }
      assert res == Last(Infos(history), MAX_ENTRIES);
    }
  }

  /** Saving and loading into a fresh buffer keeps the samples and the interval. */
  method SaveAndLoad<T(0)>(e: Entries<T>, duration: int, now: int) returns (loaded: Entries<T>)
    requires e.Valid()
    ensures loaded.Valid() && loaded.Contents() == e.Contents()
    ensures e.history != [] ==> loaded.interval == e.interval
  {
    var saved, savedInterval := e.Save();
    loaded := new Entries(duration, now);
    assert Infos(loaded.history) == [];
    loaded.Load(saved, savedInterval, now);
    assert [] + saved == saved;
    assert |saved| <= MAX_ENTRIES;
  }

  /** Which of a sequence of samples are taken, starting from the time of the last one. */
  function Accepted<T>(inputs: seq<Sample<T>>, start: int, interval: int): seq<Sample<T>> {
    if inputs == [] then []
    else
      var init, input := Accepted(inputs[..|inputs| - 1], start, interval), inputs[|inputs| - 1];
      if input.time - LastTime(init, start) < interval then init else init + [input]
  }

  function LastTime<T>(s: seq<Sample<T>>, start: int): int {
    if s == [] then start else s[|s| - 1].time
  }

  /** Accepted samples are at least an interval apart, from each other and from the start. */
  lemma {:induction false} AcceptedAreSpaced<T>(inputs: seq<Sample<T>>, start: int, interval: int)
    ensures var a := Accepted(inputs, start, interval);
            Spaced(a, interval) && (a != [] ==> a[0].time - start >= interval)
  {
    if inputs != [] {
      AcceptedAreSpaced(inputs[..|inputs| - 1], start, interval);
    }
  }

  lemma {:induction false} AcceptedNext<T>(inputs: seq<Sample<T>>, i: nat, start: int, interval: int)
    requires i < |inputs|
    ensures var soFar := Accepted(inputs[..i], start, interval);
            Accepted(inputs[..i + 1], start, interval)
            == if inputs[i].time - LastTime(soFar, start) < interval then soFar else soFar + [inputs[i]]
  {
    assert inputs[..i + 1][..i] == inputs[..i];
  }

  /** A whole run of additions: the buffer then shows the last 100 of the old and the
      accepted samples. */
  method AddAll<T(0)>(e: Entries<T>, inputs: seq<Sample<T>>)
    requires e.Valid()
    modifies e`index, e`count, e`lastAdd, e`history, e.entries
    ensures e.Valid() && e.history == old(e.history) + Accepted(inputs, old(e.lastAdd), e.interval)
  {
    ghost var start, before, accepted := e.lastAdd, e.history, [];
    for i := 0 to |inputs|
      invariant e.Valid()
      invariant accepted == Accepted(inputs[..i], start, e.interval) && e.history == before + accepted
      invariant e.lastAdd == LastTime(accepted, start)
    {
      AcceptedNext(inputs, i, start, e.interval);
      AppendAssociates(before, accepted, [inputs[i]]);
      e.Add(inputs[i].time, inputs[i].info);
      accepted := Accepted(inputs[..i + 1], start, e.interval);
    }
    assert inputs[..|inputs|] == inputs;
  }

  // ---------------------------------------------------------------- periods

  type Filter = string

  const MINUTE: int := 60 * SECOND

  const DURATIONS: map<Filter, int> := map[
    "5m" := 5 * MINUTE, "15m" := 15 * MINUTE, "1h" := 60 * MINUTE, "1d" := 24 * 60 * MINUTE, "1mo" := 30 * 24 * 60 * MINUTE]

  /** The known periods and the seconds between their samples. */
  lemma {:induction false} KnownPeriods()
    ensures DURATIONS.Keys == {"5m", "15m", "1h", "1d", "1mo"}
    ensures IntervalFor(DURATIONS["5m"]) == 3 * 1_000_000_000 && IntervalFor(DURATIONS["15m"]) == 9 * 1_000_000_000
    ensures IntervalFor(DURATIONS["1h"]) == 36 * 1_000_000_000 && IntervalFor(DURATIONS["1d"]) == 864 * 1_000_000_000
    ensures IntervalFor(DURATIONS["1mo"]) == 25_920 * 1_000_000_000
  {}

  /** After loading, every known period gets the interval of its duration; no sample
      is touched. */
  method ValidateAndFixIntervals<T(0)>(periods: map<Filter, Entries<T>>)
    requires forall f, f' :: f in periods && f' in periods && f != f' ==> periods[f] != periods[f']
    modifies (set f | f in periods :: periods[f])`interval
    ensures forall f :: f in periods && f in DURATIONS ==> periods[f].interval == IntervalFor(DURATIONS[f])
    ensures forall f :: f in periods && f !in DURATIONS ==> periods[f].interval == old(periods[f].interval)
  {
    var left := periods.Keys;
    while left != {}
      invariant left <= periods.Keys
      invariant forall f :: f in periods && f in left ==> periods[f].interval == old(periods[f].interval)
      invariant forall f :: f in periods && f !in left ==>
                  periods[f].interval == if f in DURATIONS then IntervalFor(DURATIONS[f]) else old(periods[f].interval)
      decreases left
    {
      var f :| f in left;
      if f in DURATIONS {
        var ok := periods[f].ValidateInterval(DURATIONS[f]);
        if !ok {
          periods[f].FixInterval(DURATIONS[f]);
        }
      }
      left := left - {f};
    }
  }
}

/**
 The in-process metrics registry. A histogram keeps five numbers and sixteen cumulative buckets;
 the ghost history says which observations they stand for.
 */
module MetricsRegistry {
  import opened Common
  import opened MetricKeys

  const BOUNDS: seq<nat> := [1, 5, 10, 25, 50, 100, 250, 500, 1000, 2000, 5000, 10000, 20000, 30000, 60000, 120000]

  function Total(seen: seq<real>): real {
    if seen == [] then 0.0 else Total(seen[..|seen| - 1]) + seen[|seen| - 1]
  }

  /** How many observations are at most `bound`. */
  function AtMost(seen: seq<real>, bound: nat): nat {
    if seen == [] then 0
    else AtMost(seen[..|seen| - 1], bound) + if seen[|seen| - 1] <= bound as real then 1 else 0
  }

  /** The buckets are cumulative: they grow with the bound and never pass the count. */
  lemma {:induction false} BucketsAreCumulative(seen: seq<real>, lower: nat, upper: nat)
    requires lower <= upper
    ensures AtMost(seen, lower) <= AtMost(seen, upper) <= |seen|
  {
    if seen != [] {
      BucketsAreCumulative(seen[..|seen| - 1], lower, upper);
    }
  }

  /** Counts and totals add up over any split of the history. */
  lemma {:induction false} SplitCounts(before: seq<real>, after: seq<real>, bound: nat)
    ensures AtMost(before + after, bound) == AtMost(before, bound) + AtMost(after, bound)
    ensures Total(before + after) == Total(before) + Total(after)
  {
    var all := before + after;
    if after == [] {
      assert all == before;
    } else {
      assert all[..|all| - 1] == before + after[..|after| - 1];
      SplitCounts(before, after[..|after| - 1], bound);
    }
  }

  datatype Summary = Summary(count: nat, sum: real, avg: real, min: real, max: real, buckets: seq<nat>)

  /** The summary is the one of exactly these observations. */
  ghost predicate Summarises(s: Summary, seen: seq<real>) {
    && s.count == |seen| > 0
    && s.sum == Total(seen)
    && s.avg * (s.count as real) == s.sum
    && s.min in seen && s.max in seen && (forall v :: v in seen ==> s.min <= v <= s.max)
    && |s.buckets| == |BOUNDS|
    && forall i :: 0 <= i < |BOUNDS| ==> s.buckets[i] == AtMost(seen, BOUNDS[i])
  }

  class Accumulator {
    var count: nat
    var sum: real
    var min: real
    var max: real
    var buckets: array<nat>
    ghost var seen: seq<real>

    ghost predicate Valid()
      reads this, buckets
    {
      && count == |seen| > 0
      && sum == Total(seen)
      && min in seen && max in seen && (forall v :: v in seen ==> min <= v <= max)
      && buckets.Length == |BOUNDS|
      && forall i :: 0 <= i < |BOUNDS| ==> buckets[i] == AtMost(seen, BOUNDS[i])
    }

    constructor (value: real)
      ensures Valid() && seen == [value] && fresh(buckets)
    {
      count, sum, min, max := 1, value, value, value;
      seen := [value];
      var b := new nat[|BOUNDS|](i => 0);
      buckets := b;
      new;
      for i := 0 to |BOUNDS|
        invariant buckets == b
        invariant forall j :: 0 <= j < i ==> b[j] == if value <= BOUNDS[j] as real then 1 else 0
        invariant forall j :: i <= j < |BOUNDS| ==> b[j] == 0
        modifies b
      {
        if value <= BOUNDS[i] as real {
          b[i] := 1;
        }
      }
      assert seen[..0] == [];
      assert Total(seen) == value;
    }

    method Add(value: real)
      requires Valid()
      modifies this, buckets
      ensures Valid() && seen == old(seen) + [value] && buckets == old(buckets)
    {
      ghost var before := seen;
      count, sum := count + 1, sum + value;
      if value < min {
        min := value;
      }
      if value > max {
        max := value;
      }
      for i := 0 to buckets.Length
        invariant buckets == old(buckets)
        invariant seen == before && count == old(count) + 1 && sum == old(sum) + value
        invariant min == MinReal(old(min), value) && max == MaxReal(old(max), value)
        invariant forall j :: 0 <= j < i ==>
                    buckets[j] == AtMost(before, BOUNDS[j]) + if value <= BOUNDS[j] as real then 1 else 0
        invariant forall j :: i <= j < |BOUNDS| ==> buckets[j] == AtMost(before, BOUNDS[j])
      {
        if value <= BOUNDS[i] as real {
          buckets[i] := buckets[i] + 1;
        }
      }
      seen := before + [value];
      assert seen[..|seen| - 1] == before;
    }

    /** A copy that later observations do not touch. */
    method Summarise() returns (s: Summary)
      requires Valid()
      ensures Summarises(s, seen)
    {
      s := Summary(count, sum, sum / count as real, min, max, buckets[..]);
    }
  }

  class Registry {
    const collation: Collation
    var counters: map<string, real>
    var histograms: map<string, Accumulator>

    ghost predicate Valid()
      reads this`histograms, histograms.Values, set h | h in histograms.Values :: h.buckets
    {
      && (forall k :: k in histograms ==> histograms[k].Valid())
      && (forall k, l :: k in histograms && l in histograms && k != l
            ==> histograms[k] != histograms[l] && histograms[k].buckets != histograms[l].buckets)
    }

    /** The finite observations of each series so far. */
    ghost function History(): map<string, seq<real>>
      reads this`histograms, histograms.Values
    {
      map k | k in histograms :: histograms[k].seen
    }

    /** The objects that the registry owns. */
    ghost function Parts(): set<object>
      reads this`histograms, histograms.Values
    {
      histograms.Values + set h | h in histograms.Values :: h.buckets
    }

    constructor (collation: Collation)
      ensures Valid() && History() == map[] && counters == map[] && this.collation == collation
      ensures Parts() == {}
    {
      this.collation, counters, histograms := collation, map[], map[];
    }

    method Increment(name: string, amount: real, tags: seq<Tag>)
      modifies this`counters
      ensures var key := KeyFor(collation, name, tags);
              counters == old(counters)[key := (if key in old(counters) then old(counters)[key] else 0.0) + amount]
    {
      var key := KeyFor(collation, name, tags);
      var next := (if key in counters then counters[key] else 0.0) + amount;
      counters := counters[key := next];
    }

    /** Appends a finite observation to its series' history; others are ignored. */
    method Observe(name: string, value: Num, tags: seq<Tag>)
      requires Valid()
      modifies this`histograms, Parts()
      ensures Valid() && fresh(Parts() - old(Parts()))
      ensures var key := KeyFor(collation, name, tags);
              var seen := if key in old(History()) then old(History())[key] else [];
              History() == if value.Finite? then old(History())[key := seen + [value.r]] else old(History())
    {
      hide KeyFor, Accumulator.Valid;
      if !value.Finite? {
        return;
      }
      var key := KeyFor(collation, name, tags);
      if key !in histograms {
        Start(key, value.r);
      } else {
        AddTo(key, value.r);
      }
    }

    method Start(key: string, value: real)
      requires Valid() && key !in histograms
      modifies this`histograms
      ensures Valid() && History() == old(History())[key := [] + [value]]
      ensures fresh(Parts() - old(Parts()))
    {
      hide Accumulator.Valid;
      var h := new Accumulator(value);
      assert h.seen == [] + [value];
      histograms := histograms[key := h];
    }

    method AddTo(key: string, value: real)
      requires Valid() && key in histograms
      modifies histograms[key], histograms[key].buckets
      ensures Valid() && History() == old(History())[key := old(History())[key] + [value]]
      ensures Parts() == old(Parts())
    {
      hide Accumulator.Valid;
      histograms[key].Add(value);
      assert forall h :: h in histograms.Values ==> h.buckets == old(h.buckets);
    }

    /** Every series with the summary of its history. */
    method Snapshot() returns (counts: map<string, real>, summaries: map<string, Summary>)
      requires Valid()
      ensures counts == counters
      ensures summaries.Keys == History().Keys
      ensures forall k :: k in summaries ==> Summarises(summaries[k], History()[k])
    {
      counts, summaries := counters, map[];
      var rest := histograms.Keys;
      while rest != {}
        invariant rest <= histograms.Keys && summaries.Keys == histograms.Keys - rest
        invariant forall k :: k in summaries ==> Summarises(summaries[k], histograms[k].seen)
        decreases rest
      {
        var k :| k in rest;
        var s := histograms[k].Summarise();
        summaries, rest := summaries[k := s], rest - {k};
      }
    }
  }
}

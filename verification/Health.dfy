/** The rolling health window of each provider and the score that orders them for failover. */
module Health {
  import opened Common

  const WINDOW_MS := 5 * 60 * 1000

  datatype Sample = Sample(t: int, ok: bool)

  function Last(s: seq<Sample>): Sample
    requires s != []
  {
    s[|s| - 1]
  }

  function Front(s: seq<Sample>): seq<Sample>
    requires s != []
  {
    s[..|s| - 1]
  }

  // ---- The window -------------------------------------------------------------------

  function Trimmed(samples: seq<Sample>, now: int): seq<Sample> {
    if samples != [] && samples[0].t < now - WINDOW_MS then Trimmed(samples[1..], now) else samples
  }

  ghost predicate Chronological(samples: seq<Sample>) {
    forall i, j :: 0 <= i < j < |samples| ==> samples[i].t <= samples[j].t
  }

  /** The first `n` samples are out of the window, the others in it. */
  ghost predicate CutsAt(samples: seq<Sample>, now: int, n: nat) {
    && n <= |samples|
    && (forall i :: 0 <= i < n ==> samples[i].t < now - WINDOW_MS)
    && (forall i :: n <= i < |samples| ==> samples[i].t >= now - WINDOW_MS)
  }

  /** Trimming drops exactly the samples that are out of the window. */
  lemma {:induction false} TrimmedIsTheWindow(samples: seq<Sample>, now: int)
    requires Chronological(samples)
    ensures exists n: nat :: CutsAt(samples, now, n) && Trimmed(samples, now) == samples[n..]
  {
    if samples != [] && samples[0].t < now - WINDOW_MS {
      var rest := samples[1..];
      TrimmedIsTheWindow(rest, now);
      var m: nat :| CutsAt(rest, now, m) && Trimmed(rest, now) == rest[m..];
      CutLater(samples, now, m);
      assert rest[m..] == samples[m + 1..];
    } else {
      assert CutsAt(samples, now, 0) && samples[0..] == samples;
    }
  }

  lemma CutLater(samples: seq<Sample>, now: int, m: nat)
    requires samples != [] && samples[0].t < now - WINDOW_MS && CutsAt(samples[1..], now, m)
    ensures CutsAt(samples, now, m + 1)
  {
    assert forall i :: 1 <= i < |samples| ==> samples[i] == samples[1..][i - 1];
  }

  // ---- The window over a whole run --------------------------------------------------

  /** A visit to a provider's list: a recording, or a look at it. */
  datatype Visit = Visit(provider: string, at: int, recorded: Option<bool>)

  function ListOf(state: map<string, seq<Sample>>, provider: string): seq<Sample> {
    if provider in state then state[provider] else []
  }

  function Added(v: Visit): seq<Sample> {
    if v.recorded.Some? then [Sample(v.at, v.recorded.value)] else []
  }

  function After(state: map<string, seq<Sample>>, v: Visit): map<string, seq<Sample>> {
    state[v.provider := Trimmed(ListOf(state, v.provider) + Added(v), v.at)]
  }

  function StateAfter(visits: seq<Visit>): map<string, seq<Sample>> {
    if visits == [] then map[] else After(StateAfter(visits[..|visits| - 1]), visits[|visits| - 1])
  }

  /** Everything ever recorded for a provider. */
  function Recorded(visits: seq<Visit>, provider: string): seq<Sample> {
    if visits == [] then []
    else
      var v := visits[|visits| - 1];
      Recorded(visits[..|visits| - 1], provider) + if v.provider == provider then Added(v) else []
  }

  /** The clock does not go back. */
  ghost predicate Timely(visits: seq<Visit>) {
    forall i, j :: 0 <= i < j < |visits| ==> visits[i].at <= visits[j].at
  }

  ghost predicate UpTo(samples: seq<Sample>, now: int) {
    forall i :: 0 <= i < |samples| ==> samples[i].t <= now
  }

  /** The samples of the window that ends now. */
  function InWindow(samples: seq<Sample>, now: int): seq<Sample> {
    if samples == [] then []
    else InWindow(Front(samples), now) + if Last(samples).t < now - WINDOW_MS then [] else [Last(samples)]
  }

  lemma {:induction false} RecordedInOrder(visits: seq<Visit>, provider: string, now: int)
    requires Timely(visits) && forall i :: 0 <= i < |visits| ==> visits[i].at <= now
    ensures Chronological(Recorded(visits, provider)) && UpTo(Recorded(visits, provider), now)
  {
    if visits != [] {
      var n := |visits| - 1;
      RecordedInOrder(visits[..n], provider, visits[n].at);
    }
  }

  lemma InWindowOfOneMore(samples: seq<Sample>, more: seq<Sample>, now: int)
    requires |more| <= 1
    ensures InWindow(samples + more, now) == InWindow(samples, now) + InWindow(more, now)
  {
    if more == [] {
      assert samples + more == samples;
    } else {
      assert Front(samples + more) == samples && Front(more) == [];
    }
  }

  /** An older look in between takes nothing away. */
  lemma {:induction false} InWindowTwice(samples: seq<Sample>, earlier: int, now: int)
    requires earlier <= now
    ensures InWindow(InWindow(samples, earlier), now) == InWindow(samples, now)
  {
    if samples != [] {
      InWindowTwice(Front(samples), earlier, now);
      var kept := if Last(samples).t < earlier - WINDOW_MS then [] else [Last(samples)];
      InWindowOfOneMore(InWindow(Front(samples), earlier), kept, now);
      if kept != [] {
        assert Front(kept) == [];
      }
    }
  }

  lemma {:induction false} InWindowInOrder(samples: seq<Sample>, now: int, latest: int)
    requires Chronological(samples) && UpTo(samples, latest)
    ensures Chronological(InWindow(samples, now)) && UpTo(InWindow(samples, now), latest)
    decreases |samples|
  {
    if samples != [] {
      InWindowInOrder(Front(samples), now, Last(samples).t);
    }
  }

  ghost predicate AllRecent(samples: seq<Sample>, now: int) {
    forall i :: 0 <= i < |samples| ==> samples[i].t >= now - WINDOW_MS
  }

  ghost predicate AllOld(samples: seq<Sample>, now: int) {
    forall i :: 0 <= i < |samples| ==> samples[i].t < now - WINDOW_MS
  }

  lemma {:induction false} AllInWindow(samples: seq<Sample>, now: int)
    requires AllRecent(samples, now)
    ensures InWindow(samples, now) == samples
    decreases |samples|
  {
    hide AllRecent, InWindow, Front, Last;
    if samples == [] {
      NothingInWindow(now);
    } else {
      RecentIsKept(samples, now);
      AllInWindow(Front(samples), now);
    }
  }

  lemma NothingInWindow(now: int)
    ensures InWindow([], now) == []
  {}

  lemma RecentIsKept(samples: seq<Sample>, now: int)
    requires samples != [] && AllRecent(samples, now)
    ensures AllRecent(Front(samples), now) && |Front(samples)| < |samples|
    ensures InWindow(samples, now) == InWindow(Front(samples), now) + [Last(samples)]
    ensures Front(samples) + [Last(samples)] == samples
  {}

  lemma {:induction false} NoneInWindow(samples: seq<Sample>, now: int)
    requires AllOld(samples, now)
    ensures InWindow(samples, now) == []
  {
    if samples != [] {
      assert AllOld(Front(samples), now) && Last(samples).t < now - WINDOW_MS;
      hide AllOld;
      NoneInWindow(Front(samples), now);
    }
  }

  lemma {:induction false} InWindowOfTwo(a: seq<Sample>, b: seq<Sample>, now: int)
    ensures InWindow(a + b, now) == InWindow(a, now) + InWindow(b, now)
  {
    if b == [] {
      assert a + b == a;
    } else {
      assert Front(a + b) == a + Front(b);
      InWindowOfTwo(a, Front(b), now);
    }
  }

  /** The window holds exactly the samples of the last five minutes. */
  lemma {:induction false} InWindowHas(samples: seq<Sample>, now: int, x: Sample)
    ensures x in InWindow(samples, now) <==> x in samples && x.t >= now - 300_000
  {
    if samples != [] {
      InWindowHas(Front(samples), now, x);
      assert samples == Front(samples) + [Last(samples)];
    }
  }

  /** On a list in order, dropping the head and keeping the window are the same. */
  lemma TrimmedIsInWindow(samples: seq<Sample>, now: int)
    requires Chronological(samples)
    ensures Trimmed(samples, now) == InWindow(samples, now)
  {
    TrimmedIsTheWindow(samples, now);
    var n: nat :| CutsAt(samples, now, n) && Trimmed(samples, now) == samples[n..];
    assert AllOld(samples[..n], now) && AllRecent(samples[n..], now);
    assert samples[..n] + samples[n..] == samples;
    hide InWindow, Trimmed, Chronological, CutsAt;
    InWindowOfTwo(samples[..n], samples[n..], now);
    NoneInWindow(samples[..n], now);
    AllInWindow(samples[n..], now);
  }

  /** A list is what was recorded for its provider, as of some time up to `now`. */
  ghost predicate WindowBy(list: seq<Sample>, all: seq<Sample>, now: int) {
    exists since :: since <= now && list == InWindow(all, since)
  }

  /**
   Under a clock that does not go back, the list that a visit leaves is exactly what was ever
   recorded for the provider within five minutes of the visit, in order, whoever visited it before.
   */
  lemma {:induction false} VisitLeavesWindow(visits: seq<Visit>)
    requires Timely(visits) && visits != []
    ensures var v := visits[|visits| - 1];
            ListOf(StateAfter(visits), v.provider) == InWindow(Recorded(visits, v.provider), v.at)
    decreases |visits|, 0
  {
    var n := |visits| - 1;
    var v := visits[n];
    var before := visits[..n];
    ListIsWindow(before, v.provider, v.at);
    RecordedInOrder(before, v.provider, v.at);
    var all, list := Recorded(before, v.provider), ListOf(StateAfter(before), v.provider);
    var since :| since <= v.at && list == InWindow(all, since);
    InWindowInOrder(all, since, v.at);
    TrimmedIsInWindow(list + Added(v), v.at);
    InWindowOfOneMore(list, Added(v), v.at);
    InWindowTwice(all, since, v.at);
    InWindowOfOneMore(all, Added(v), v.at);
  }

  lemma {:induction false} ListIsWindow(visits: seq<Visit>, provider: string, now: int)
    requires Timely(visits) && forall i :: 0 <= i < |visits| ==> visits[i].at <= now
    ensures WindowBy(ListOf(StateAfter(visits), provider), Recorded(visits, provider), now)
    decreases |visits|, 1
  {
    if visits == [] {
      assert ListOf(StateAfter(visits), provider) == InWindow(Recorded(visits, provider), now);
    } else {
      var n := |visits| - 1;
      if visits[n].provider == provider {
        VisitLeavesWindow(visits);
        var since := visits[n].at;
        assert ListOf(StateAfter(visits), provider) == InWindow(Recorded(visits, provider), since);
      } else {
        ListIsWindow(visits[..n], provider, now);
        assert Recorded(visits, provider) == Recorded(visits[..n], provider);
        assert ListOf(StateAfter(visits), provider) == ListOf(StateAfter(visits[..n]), provider);
      }
    }
  }

  // ---- The score --------------------------------------------------------------------

  function Failures(s: seq<Sample>): nat {
    if s == [] then 0 else Failures(Front(s)) + if Last(s).ok then 0 else 1
  }

  /** How many failures the list ends with. */
  function Trailing(s: seq<Sample>): nat {
    if s == [] || Last(s).ok then 0 else 1 + Trailing(Front(s))
  }

  /** A failure `p` places from the end weighs 2^max(0, c - p - 1). */
  function Weighted(s: seq<Sample>, c: int): nat {
    if s == [] then 0
    else Weighted(Front(s), c - 1) + if Last(s).ok then 0 else Pow2(Max(0, c - 1))
  }

  function FromWeight(weighted: nat, n: nat): real
    requires n > 0
  {
    MaxReal(0.0, 1.0 - weighted as real / n as real)
  }

  /** The score of a window when other instances report `db` consecutive failures. */
  function Score(s: seq<Sample>, db: nat): real {
    if s == [] then (if db == 0 then 0.5 else 0.0)
    else FromWeight(Weighted(s, Max(Trailing(s), db)), |s|)
  }

  lemma ScoreInRange(s: seq<Sample>, db: nat)
    ensures 0.0 <= Score(s, db) <= 1.0
  {
    if s != [] {
      assert Weighted(s, Max(Trailing(s), db)) as real / |s| as real >= 0.0;
    }
  }

  lemma {:induction false} WithoutStreak(s: seq<Sample>, c: int)
    requires c <= 1
    ensures Weighted(s, c) == Failures(s)
  {
    if s != [] {
      WithoutStreak(Front(s), c - 1);
    }
  }

  lemma {:induction false} StreakWeight(s: seq<Sample>)
    ensures Trailing(s) <= Failures(s) <= |s|
    ensures Weighted(s, Trailing(s)) == Failures(s) - Trailing(s) + Pow2(Trailing(s)) - 1
  {
    if s != [] {
      StreakWeight(Front(s));
      if Last(s).ok {
        WithoutStreak(Front(s), -1);
      }
    }
  }

  /** With k trailing failures and e earlier ones among n samples: max(0, 1 - (e + 2^k - 1) / n). */
  lemma ScoreLaw(s: seq<Sample>)
    requires s != []
    ensures var k := Trailing(s);
            var e := Failures(s) - k;
            e >= 0 && Score(s, 0) == MaxReal(0.0, 1.0 - (e + Pow2(k) - 1) as real / |s| as real)
  {
    StreakWeight(s);
  }

  /** What failure i of the window weighs when `c` failures count as consecutive. */
  function WeightAt(s: seq<Sample>, c: nat, i: nat): nat
    requires i < |s|
  {
    var fromEnd := |s| - 1 - i;
    if s[i].ok then 0 else if fromEnd >= c then 1 else Pow2(c - 1 - fromEnd)
  }

  function WeightUpTo(s: seq<Sample>, c: nat, n: nat): nat
    requires n <= |s|
  {
    if n == 0 then 0 else WeightUpTo(s, c, n - 1) + WeightAt(s, c, n - 1)
  }

  lemma {:induction false} WeightedByPosition(s: seq<Sample>, c: nat, n: nat)
    requires n <= |s|
    ensures Weighted(s[..n], c - (|s| - n)) == WeightUpTo(s, c, n)
  {
    if n > 0 {
      WeightedByPosition(s, c, n - 1);
      assert Front(s[..n]) == s[..n - 1] && Last(s[..n]) == s[n - 1];
    }
  }

  /** How many failures the window ends with, said without counting from the end. */
  lemma {:induction false} TrailingIs(s: seq<Sample>)
    ensures Trailing(s) <= |s| && forall i :: |s| - Trailing(s) <= i < |s| ==> !s[i].ok
    ensures Trailing(s) < |s| ==> s[|s| - 1 - Trailing(s)].ok
  {
    if s != [] && !Last(s).ok {
      TrailingIs(Front(s));
    }
  }

  /**
   The score whatever other instances report: with c the greater of their count and of the failures
   at the end, a failure counts 1 when it is at least c places from the end and 2^(c - 1 - p) when
   it is p places from it.
   */
  lemma ScoreLawMerged(s: seq<Sample>, db: nat)
    requires s != []
    ensures var c := if db > Trailing(s) then db else Trailing(s);
            Score(s, db) == MaxReal(0.0, 1.0 - WeightUpTo(s, c, |s|) as real / |s| as real)
  {
    var c := Max(Trailing(s), db);
    WeightedByPosition(s, c, |s|);
    assert s[..|s|] == s;
  }

  /** Without local samples the score is neutral, or 0 once another instance reports a failure. */
  lemma ScoreWithoutSamples(db: nat)
    ensures Score([], db) == if db == 0 then 0.5 else 0.0
  {}

  /** More consecutive failures elsewhere never raise the score. */
  lemma MoreFailuresElsewhere(s: seq<Sample>, db: nat, db': nat)
    requires db <= db'
    ensures Score(s, db') <= Score(s, db)
  {
    if s != [] {
      hide Weighted, Trailing;
      var c, c' := Max(Trailing(s), db), Max(Trailing(s), db');
      ShorterStreaks(s, c, c');
      MoreOfTheSame(Weighted(s, c), Weighted(s, c'), |s|);
      WeightOrdersScores(Weighted(s, c), |s|, Weighted(s, c'), |s|);
    }
  }

  lemma MoreOfTheSame(w: nat, w': nat, n: nat)
    requires w <= w'
    ensures w * n <= w' * n
  {
    assert (w' - w) * n >= 0;
  }

  /** A failure at the end weighs at least 2^(c - 1). */
  lemma LastFailureWeighs(s: seq<Sample>, db: nat)
    requires s != [] && !s[|s| - 1].ok
    ensures var c := if db > Trailing(s) then db else Trailing(s);
            c >= 1 && Score(s, db) <= MaxReal(0.0, 1.0 - Pow2(c - 1) as real / |s| as real)
  {
    var c := Max(Trailing(s), db);
    assert Weighted(s, c) >= Pow2(c - 1);
    hide Weighted, Trailing, Pow2;
    MoreOfTheSame(Pow2(c - 1), Weighted(s, c), |s|);
    WeightOrdersScores(Pow2(c - 1), |s|, Weighted(s, c), |s|);
  }

  lemma NegativeTimesPositive(d: real, m: real)
    requires d < 0.0 < m
    ensures d * m < 0.0
  {}

  lemma FractionOrder(w: nat, n: nat, w': nat, n': nat)
    requires n > 0 && n' > 0 && w * n' <= w' * n
    ensures w as real / n as real <= w' as real / n' as real
  {
    var a, b, x, y := n as real, n' as real, w as real / n as real, w' as real / n' as real;
    assert x * a == w as real && y * b == w' as real;
    assert (w * n') as real == (w as real) * b && (w' * n) as real == (w' as real) * a;
    assert (y - x) * (a * b) == (y * b) * a - (x * a) * b;
    assert a * b > 0.0;
    if y - x < 0.0 {
      NegativeTimesPositive(y - x, a * b);
      assert false;
    }
  }

  lemma FractionAtLeastOne(w: nat, n: nat)
    requires 0 < n <= w
    ensures w as real / n as real >= 1.0
  {
    var y := w as real / n as real;
    assert (y - 1.0) * (n as real) == (w - n) as real;
    if y - 1.0 < 0.0 {
      NegativeTimesPositive(y - 1.0, n as real);
      assert false;
    }
  }

  lemma WeightOrdersScores(w: nat, n: nat, w': nat, n': nat)
    requires n > 0 && n' > 0
    requires w * n' <= w' * n || w' >= n'
    ensures FromWeight(w', n') <= FromWeight(w, n)
  {
    if w * n' <= w' * n {
      FractionOrder(w, n, w', n');
    } else {
      FractionAtLeastOne(w', n');
    }
  }

  /** Lowering the streak by one takes less than half of its power of two off the weight. */
  lemma {:induction false} ShorterStreak(s: seq<Sample>, c: int)
    ensures Weighted(s, c - 1) <= Weighted(s, c) <= Weighted(s, c - 1) + Pow2(Max(0, c - 1)) - 1
  {
    if s != [] {
      ShorterStreak(Front(s), c - 1);
    }
  }

  lemma Appended(s: seq<Sample>, x: Sample)
    ensures Front(s + [x]) == s && Last(s + [x]) == x
  {
    assert (s + [x])[..|s|] == s;
  }

  lemma FailureAddsWeight(s: seq<Sample>, db: nat, x: Sample)
    requires !x.ok
    ensures var s' := s + [x];
            Weighted(s', Max(Trailing(s'), db)) >= Weighted(s, Max(Trailing(s), db)) + 1
  {
    Appended(s, x);
    var s' := s + [x];
    var c, c' := Max(Trailing(s), db), Max(Trailing(s'), db);
    assert Trailing(s') == Trailing(s) + 1;
    assert Weighted(s', c') == Weighted(s, c' - 1) + Pow2(Max(0, c' - 1));
    if c' == c {
      ShorterStreak(s, c);
    }
  }

  lemma SuccessAddsNoWeight(s: seq<Sample>, db: nat, x: Sample)
    requires x.ok
    ensures var s' := s + [x];
            Weighted(s', Max(Trailing(s'), db)) <= Weighted(s, Max(Trailing(s), db))
  {
    Appended(s, x);
    var s' := s + [x];
    var c, c' := Max(Trailing(s), db), Max(Trailing(s'), db);
    assert Weighted(s', c') == Weighted(s, c' - 1);
    ShorterStreaks(s, c' - 1, c);
  }

  lemma MoreWeightPerSample(w: nat, w': nat, n: nat)
    requires w + 1 <= w' && w <= n
    ensures w * (n + 1) <= w' * n
  {
    var d := w' - w - 1;
    assert w' * n == (w + 1 + d) * n == w * n + n + d * n;
    assert d * n >= 0;
    assert w * (n + 1) == w * n + w;
  }

  lemma LessWeightPerSample(w: nat, w': nat, n: nat)
    requires w' <= w
    ensures w' * n <= w * (n + 1)
  {
    assert (w - w') * n >= 0;
    assert w * (n + 1) == w * n + w;
  }

  /** As long as no sample expires, one more failure never raises the score. */
  lemma FailureNeverRaises(s: seq<Sample>, db: nat, t: int)
    ensures Score(s + [Sample(t, false)], db) <= Score(s, db)
  {
    hide Weighted, Trailing;
    var s' := s + [Sample(t, false)];
    var w, w' := Weighted(s, Max(Trailing(s), db)), Weighted(s', Max(Trailing(s'), db));
    FailureAddsWeight(s, db, Sample(t, false));
    if s == [] {
      FractionAtLeastOne(w', 1);
    } else {
      if w <= |s| {
        MoreWeightPerSample(w, w', |s|);
      }
      WeightOrdersScores(w, |s|, w', |s'|);
    }
  }

  /** As long as no sample expires, one more success never lowers the score. */
  lemma SuccessNeverLowers(s: seq<Sample>, db: nat, t: int)
    ensures Score(s + [Sample(t, true)], db) >= Score(s, db)
  {
    var s' := s + [Sample(t, true)];
    SuccessAddsNoWeight(s, db, Sample(t, true));
    if s == [] {
      Appended(s, Sample(t, true));
      assert Weighted(s', Max(Trailing(s'), db)) == 0;
      assert FromWeight(0, 1) == 1.0;
    } else {
      hide Weighted, Trailing;
      var w, w' := Weighted(s, Max(Trailing(s), db)), Weighted(s', Max(Trailing(s'), db));
      LessWeightPerSample(w, w', |s|);
      WeightOrdersScores(w', |s'|, w, |s|);
    }
  }

  lemma {:induction false} ShorterStreaks(s: seq<Sample>, low: int, high: int)
    requires low <= high
    ensures Weighted(s, low) <= Weighted(s, high)
    decreases high - low
  {
    if low < high {
      ShorterStreaks(s, low, high - 1);
      ShorterStreak(s, high);
    }
  }

  // ---- The store --------------------------------------------------------------------

  predicate IsRate(rate: real, part: nat, whole: nat) {
    rate * (whole as real) == part as real && 0.0 <= rate <= 1.0
  }

  function FailureRate(failed: nat, total: nat): (rate: real)
    requires failed <= total
    ensures IsRate(rate, failed, total)
  {
    if total == 0 then 0.0 else failed as real / total as real
  }

  datatype Snapshot = Snapshot(samples: nat, ok: nat, failed: nat, failureRate: real)

  class HealthStore {
    var state: map<string, seq<Sample>>

    function Samples(provider: string): seq<Sample>
      reads this
    {
      ListOf(state, provider)
    }

    method Trim(provider: string, now: int)
      modifies this
      ensures state == After(old(state), Visit(provider, now, None))
    {
      var samples := Samples(provider);
      assert samples + [] == samples;
      var i := 0;
      while i < |samples| && samples[i].t < now - WINDOW_MS
        invariant i <= |samples|
        invariant Trimmed(samples[i..], now) == Trimmed(samples, now)
      {
        assert samples[i..][1..] == samples[i + 1..];
        i := i + 1;
      }
      state := state[provider := samples[i..]];
    }

    method Record(provider: string, ok: bool, now: int)
      modifies this
      ensures state == After(old(state), Visit(provider, now, Some(ok)))
    {
      state := state[provider := Samples(provider) + [Sample(now, ok)]];
      assert Samples(provider) + [] == Samples(provider);
      Trim(provider, now);
    }

    method ConsecutiveFailures(samples: seq<Sample>) returns (count: nat)
      ensures count == Trailing(samples)
    {
      count := 0;
      var i := |samples|;
      assert samples[..i] == samples;
      while i > 0
        invariant 0 <= i <= |samples|
        invariant count + Trailing(samples[..i]) == Trailing(samples)
      {
        if samples[i - 1].ok {
          return;
        }
        assert Front(samples[..i]) == samples[..i - 1];
        count, i := count + 1, i - 1;
      }
    }

    method GetHealth(provider: string, now: int) returns (h: Snapshot)
      modifies this
      ensures state == After(old(state), Visit(provider, now, None))
      ensures var s := Samples(provider);
              h.samples == h.ok + h.failed == |s| && h.failed == Failures(s)
              && IsRate(h.failureRate, h.failed, h.samples)
    {
      hide IsRate, FailureRate;
      Trim(provider, now);
      var samples := state[provider];
      var ok, failed := 0, 0;
      for i := 0 to |samples|
        invariant ok + failed == i && failed == Failures(samples[..i])
      {
        assert Front(samples[..i + 1]) == samples[..i];
        if samples[i].ok {
          ok := ok + 1;
        } else {
          failed := failed + 1;
        }
      }
      assert samples[..|samples|] == samples;
      var total := ok + failed;
      h := Snapshot(total, ok, failed, FailureRate(failed, total));
    }

    /** The score of the trimmed window; `db` is the cross-instance failure count. */
    method GetScore(provider: string, now: int, db: nat) returns (score: real)
      modifies this
      ensures state == After(old(state), Visit(provider, now, None))
      ensures score == Score(Samples(provider), db)
    {
      Trim(provider, now);
      score := ScoreOf(state[provider], db);
    }

    method ScoreOf(samples: seq<Sample>, db: nat) returns (score: real)
      ensures score == Score(samples, db)
    {
      if samples == [] {
        if db == 0 {
          return 0.5;
        }
        var weighted := 0;
        for i := 0 to db
          invariant weighted == Pow2(i) - 1 >= i
        {
          weighted := weighted + Pow2(i);
        }
        FractionAtLeastOne(weighted, db);
        return MaxReal(0.0, 1.0 - weighted as real / db as real);
      }
      var local := ConsecutiveFailures(samples);
      var consec := Max(local, db);
      var weightedFailures: nat := 0;
      for i := 0 to |samples|
        invariant weightedFailures == Weighted(samples[..i], consec - (|samples| - i))
      {
        assert Front(samples[..i + 1]) == samples[..i] && Last(samples[..i + 1]) == samples[i];
        if !samples[i].ok {
          var positionFromEnd := |samples| - 1 - i;
          weightedFailures := weightedFailures + Pow2(Max(0, consec - positionFromEnd - 1));
        }
      }
      assert samples[..|samples|] == samples;
      score := MaxReal(0.0, 1.0 - weightedFailures as real / |samples| as real);
    }
  }
}

/** The numeric indicators: each fast loop computes its declarative definition, and what that gives. */
module Indicators {
  import opened Common

  datatype Candle = Candle(h: real, l: real, c: real)

  /** An indicator series, aligned with its candles; None where there is no value yet. */
  type Series = seq<Option<real>>

  function Closes(candles: seq<Candle>): (xs: seq<real>)
    ensures |xs| == |candles|
    ensures forall i :: 0 <= i < |xs| ==> xs[i] == candles[i].c
  {
    seq(|candles|, i requires 0 <= i < |candles| => candles[i].c)
  }

  /** `nullCount` empty places, then the values. */
  method PadFront(series: seq<real>, nullCount: nat) returns (out: Series)
    ensures |out| == nullCount + |series|
    ensures forall i :: 0 <= i < nullCount ==> out[i] == None
    ensures forall i :: nullCount <= i < |out| ==> out[i] == Some(series[i - nullCount])
  {
    out := [];
    for i := 0 to nullCount
      invariant |out| == i && forall j :: 0 <= j < i ==> out[j] == None
    {
      out := out + [None];
    }
    for i := 0 to |series|
      invariant |out| == nullCount + i
      invariant forall j :: 0 <= j < nullCount ==> out[j] == None
      invariant forall j :: nullCount <= j < |out| ==> out[j] == Some(series[j - nullCount])
    {
      out := out + [Some(series[i])];
    }
  }

  /** `Array(n).fill(null)` */
  function AllNull(n: nat): (out: Series)
    ensures |out| == n && forall i :: 0 <= i < n ==> out[i] == None
  {
    seq(n, _ => None)
  }

  // ---- Means ------------------------------------------------------------------------

  /** The sum of xs[lo..hi]. */
  function Sum(xs: seq<real>, lo: nat, hi: nat): real
    requires lo <= hi <= |xs|
  {
    if lo == hi then 0.0 else Sum(xs, lo, hi - 1) + xs[hi - 1]
  }

  function Mean(xs: seq<real>, lo: nat, hi: nat): real
    requires lo < hi <= |xs|
  {
    Sum(xs, lo, hi) / (hi - lo) as real
  }

  lemma {:induction false} SumFromFront(xs: seq<real>, lo: nat, hi: nat)
    requires lo < hi <= |xs|
    ensures Sum(xs, lo, hi) == xs[lo] + Sum(xs, lo + 1, hi)
    decreases hi
  {
    if lo + 1 < hi {
      SumFromFront(xs, lo, hi - 1);
    }
  }

  lemma DivScale(a: real, s: real, b: real, n: real)
    requires n > 0.0
    ensures (a * s + n * b) / n == a * (s / n) + b
  {
    var q := s / n;
    assert q * n == s;
    assert a * s + n * b == (a * q + b) * n;
    assert ((a * q + b) * n) / n == a * q + b;
  }

  lemma DivBounds(s: real, n: real, lo: real, hi: real)
    requires n > 0.0 && lo * n <= s <= hi * n
    ensures lo <= s / n <= hi
  {
    var q := s / n;
    assert q * n == s;
    if q < lo {
      ProductOrder(q, lo, n);
      assert false;
    }
    if q > hi {
      ProductOrder(hi, q, n);
      assert false;
    }
  }

  lemma ProductOrder(x: real, y: real, n: real)
    requires x < y && n > 0.0
    ensures x * n < y * n
  {
    assert (y - x) * n > 0.0;
  }

  ghost predicate Within(xs: seq<real>, n: nat, lo: real, hi: real)
    requires n <= |xs|
  {
    forall j :: 0 <= j < n ==> lo <= xs[j] <= hi
  }

  lemma {:induction false} SumBounds(xs: seq<real>, lo: nat, hi: nat, least: real, most: real)
    requires lo <= hi <= |xs| && Within(xs, hi, least, most)
    ensures least * (hi - lo) as real <= Sum(xs, lo, hi) <= most * (hi - lo) as real
    decreases hi
  {
    if lo < hi {
      SumBounds(xs, lo, hi - 1, least, most);
      var n := (hi - 1 - lo) as real;
      assert (hi - lo) as real == n + 1.0;
      assert least * (n + 1.0) == least * n + least && most * (n + 1.0) == most * n + most;
    }
  }

  lemma MeanBounds(xs: seq<real>, lo: nat, hi: nat, least: real, most: real)
    requires lo < hi <= |xs| && Within(xs, hi, least, most)
    ensures least <= Mean(xs, lo, hi) <= most
  {
    SumBounds(xs, lo, hi, least, most);
    DivBounds(Sum(xs, lo, hi), (hi - lo) as real, least, most);
  }

  /** ys is xs scaled by a and shifted by b. */
  ghost predicate Affine(xs: seq<real>, ys: seq<real>, a: real, b: real) {
    |xs| == |ys| && forall j :: 0 <= j < |xs| ==> ys[j] == a * xs[j] + b
  }

  lemma {:induction false} SumAffine(xs: seq<real>, ys: seq<real>, a: real, b: real, lo: nat, hi: nat)
    requires Affine(xs, ys, a, b) && lo <= hi <= |xs|
    ensures Sum(ys, lo, hi) == a * Sum(xs, lo, hi) + (hi - lo) as real * b
    decreases hi
  {
    if lo < hi {
      SumAffine(xs, ys, a, b, lo, hi - 1);
      var n := (hi - 1 - lo) as real;
      assert (hi - lo) as real * b == n * b + b by {
        assert (hi - lo) as real == n + 1.0;
      }
      assert a * (Sum(xs, lo, hi - 1) + xs[hi - 1]) == a * Sum(xs, lo, hi - 1) + a * xs[hi - 1];
    }
  }

  lemma MeanAffine(xs: seq<real>, ys: seq<real>, a: real, b: real, lo: nat, hi: nat)
    requires Affine(xs, ys, a, b) && lo < hi <= |xs|
    ensures Mean(ys, lo, hi) == a * Mean(xs, lo, hi) + b
  {
    SumAffine(xs, ys, a, b, lo, hi);
    DivScale(a, Sum(xs, lo, hi), b, (hi - lo) as real);
  }

  // ---- Simple moving average --------------------------------------------------------

  /** The rolling sum gives the mean of every window. A period below 1 throws. */
  method Sma(candles: seq<Candle>, period: int) returns (out: Option<Series>)
    ensures out.None? <==> period < 1
    ensures out.Some? ==>
              && |out.value| == |candles|
              && forall i :: 0 <= i < |candles| ==>
                   out.value[i] == if i < period - 1 then None else Some(Mean(Closes(candles), i - period + 1, i + 1))
  {
    if period < 1 {
      return None;
    }
    var xs := Closes(candles);
    if |xs| < period {
      return Some(AllNull(|xs|));
    }
    var sum := 0.0;
    for i := 0 to period
      invariant sum == Sum(xs, 0, i)
    {
      sum := sum + xs[i];
    }
    var values := [sum / period as real];
    for i := period to |xs|
      invariant sum == Sum(xs, i - period, i)
      invariant |values| == i - period + 1
      invariant forall j :: 0 <= j < |values| ==> values[j] == Mean(xs, j, j + period)
    {
      SumFromFront(xs, i - period, i);
      sum := sum + (xs[i] - xs[i - period]);
      values := values + [sum / period as real];
    }
    var padded := PadFront(values, period - 1);
    out := Some(padded);
  }

  // ---- Exponential moving average ---------------------------------------------------

  function Smoothing(period: nat): real {
    2.0 / (period + 1) as real
  }

  function Pull(prev: real, x: real, k: real): real {
    (x - prev) * k + prev
  }

  /** Seeded with the mean of the first `period` values, then pulled by 2/(period+1) at every value. */
  function EmaAt(xs: seq<real>, period: nat, i: nat): real
    requires 1 <= period && period - 1 <= i < |xs|
  {
    if i == period - 1 then Mean(xs, 0, period)
    else Pull(EmaAt(xs, period, i - 1), xs[i], Smoothing(period))
  }

  lemma NonNegativeProduct(x: real, y: real)
    requires x >= 0.0 && y >= 0.0
    ensures x * y >= 0.0
  {}

  lemma PullStaysBetween(x: real, prev: real, k: real, lo: real, hi: real)
    requires 0.0 <= k <= 1.0 && lo <= x <= hi && lo <= prev <= hi
    ensures lo <= Pull(prev, x, k) <= hi
  {
    NonNegativeProduct(x - lo, k);
    NonNegativeProduct(hi - x, k);
    NonNegativeProduct(prev - lo, 1.0 - k);
    NonNegativeProduct(hi - prev, 1.0 - k);
    assert Pull(prev, x, k) - lo == (x - lo) * k + (prev - lo) * (1.0 - k);
    assert hi - Pull(prev, x, k) == (hi - x) * k + (hi - prev) * (1.0 - k);
  }

  lemma SmoothingInRange(period: nat)
    requires 1 <= period
    ensures 0.0 <= Smoothing(period) <= 1.0
  {
    DivBounds(2.0, (period + 1) as real, 0.0, 1.0);
  }

  /** The EMA in closed form: from period to period + 1 parts, two parts are the new value. */
  lemma EmaInParts(xs: seq<real>, period: nat, i: nat)
    requires 1 <= period && period - 1 <= i < |xs|
    ensures i == period - 1 ==> EmaAt(xs, period, i) * period as real == Sum(xs, 0, period)
    ensures i >= period ==>
              EmaAt(xs, period, i) * (period + 1) as real
              == EmaAt(xs, period, i - 1) * (period - 1) as real + 2.0 * xs[i]
  {
    if i >= period {
      PullInParts(EmaAt(xs, period, i - 1), xs[i], period);
    }
  }

  /** Of period + 1 parts of a value, period - 1 are the one before and two the new close. */
  ghost predicate IsEmaStep(out: Series, candles: seq<Candle>, period: nat, i: nat)
    requires 1 <= i < |out| == |candles| && 1 <= period
  {
    && out[i - 1].Some? && out[i].Some?
    && out[i].value * (period + 1) as real == out[i - 1].value * (period - 1) as real + 2.0 * candles[i].c
  }

  lemma EmaStepReads(out: Series, candles: seq<Candle>, period: nat, i: nat)
    requires 1 <= period <= i < |out| == |candles|
    requires out[i - 1] == Some(EmaAt(Closes(candles), period, i - 1))
    requires out[i] == Some(EmaAt(Closes(candles), period, i))
    ensures IsEmaStep(out, candles, period, i)
  {
    hide EmaAt, Pull, Smoothing, Mean;
    EmaInParts(Closes(candles), period, i);
  }

  lemma PullInParts(prev: real, x: real, period: nat)
    requires 1 <= period
    ensures Pull(prev, x, Smoothing(period)) * (period + 1) as real == prev * (period - 1) as real + 2.0 * x
  {
    var k, n := Smoothing(period), (period + 1) as real;
    assert k * n == 2.0;
    assert (period - 1) as real == n - 2.0;
    assert ((x - prev) * k + prev) * n == (x - prev) * (k * n) + prev * n;
    assert prev * (n - 2.0) == prev * n - 2.0 * prev;
  }

  /** A mean times the number of values is their sum. */
  lemma MeanTimesCount(xs: seq<real>, lo: nat, hi: nat)
    requires lo < hi <= |xs|
    ensures Mean(xs, lo, hi) * (hi - lo) as real == Sum(xs, lo, hi)
  {}

  /** An EMA stays between the least and the greatest value seen. */
  lemma {:induction false} EmaBounds(xs: seq<real>, period: nat, i: nat, lo: real, hi: real)
    requires 1 <= period && period - 1 <= i < |xs| && Within(xs, i + 1, lo, hi)
    ensures lo <= EmaAt(xs, period, i) <= hi
    decreases i
  {
    hide Pull, Smoothing, Mean;
    if i == period - 1 {
      MeanBounds(xs, 0, period, lo, hi);
    } else {
      EmaBounds(xs, period, i - 1, lo, hi);
      SmoothingInRange(period);
      PullStaysBetween(xs[i], EmaAt(xs, period, i - 1), Smoothing(period), lo, hi);
    }
  }

  lemma PullAffine(prev: real, x: real, prev': real, x': real, k: real, a: real, b: real)
    requires prev' == a * prev + b && x' == a * x + b
    ensures Pull(prev', x', k) == a * Pull(prev, x, k) + b
  {
    assert ((a * x + b) - (a * prev + b)) * k == a * ((x - prev) * k);
  }

  /** Scaling and shifting the values scales and shifts the EMA. */
  lemma {:induction false} EmaAffine(xs: seq<real>, ys: seq<real>, a: real, b: real, period: nat, i: nat)
    requires Affine(xs, ys, a, b) && 1 <= period && period - 1 <= i < |xs|
    ensures EmaAt(ys, period, i) == a * EmaAt(xs, period, i) + b
    decreases i
  {
    hide Pull, Smoothing, Mean;
    if i == period - 1 {
      MeanAffine(xs, ys, a, b, 0, period);
    } else {
      EmaAffine(xs, ys, a, b, period, i - 1);
      PullAffine(EmaAt(xs, period, i - 1), xs[i], EmaAt(ys, period, i - 1), ys[i], Smoothing(period), a, b);
    }
  }

  /** The values of the EMA from its first one on, as both EMA loops compute them. */
  method EmaValues(xs: seq<real>, period: nat) returns (values: seq<real>)
    requires 1 <= period <= |xs|
    ensures |values| == |xs| - period + 1
    ensures forall j :: 0 <= j < |values| ==> values[j] == EmaAt(xs, period, j + period - 1)
  {
    hide Pull, Smoothing;
    var k := Smoothing(period);
    var seed := 0.0;
    for i := 0 to period
      invariant seed == Sum(xs, 0, i)
    {
      seed := seed + xs[i];
    }
    var prev := seed / period as real;
    values := [prev];
    for i := period to |xs|
      invariant |values| == i - period + 1 && prev == EmaAt(xs, period, i - 1)
      invariant forall j :: 0 <= j < |values| ==> values[j] == EmaAt(xs, period, j + period - 1)
    {
      prev := Pull(prev, xs[i], k);
      values := values + [prev];
    }
  }

  /** The EMA of raw numbers, empty exactly before index period - 1. */
  method EmaOfNumbers(xs: seq<real>, period: nat) returns (out: Series)
    requires 1 <= period
    ensures |out| == |xs|
    ensures forall i :: 0 <= i < |xs| ==> out[i] == if i < period - 1 then None else Some(EmaAt(xs, period, i))
  {
    if |xs| < period {
      return AllNull(|xs|);
    }
    var values := EmaValues(xs, period);
    out := PadFront(values, period - 1);
  }

  /** The EMA of the closes. A period below 1 throws. */
  method Ema(candles: seq<Candle>, period: int) returns (out: Option<Series>)
    ensures out.None? <==> period < 1
    ensures out.Some? ==>
              && |out.value| == |candles|
              && forall i :: 0 <= i < |candles| ==>
                   out.value[i] == if i < period - 1 then None else Some(EmaAt(Closes(candles), period, i))
    ensures out.Some? ==> forall i :: period <= i < |candles| ==> IsEmaStep(out.value, candles, period, i)
  {
    if period < 1 {
      return None;
    }
    hide EmaAt, IsEmaStep;
    var series := EmaOfNumbers(Closes(candles), period);
    forall i | period <= i < |candles| ensures IsEmaStep(series, candles, period, i) {
      EmaStepReads(series, candles, period, i);
    }
    out := Some(series);
  }

  // ---- MACD -------------------------------------------------------------------------

  datatype MacdPoint = MacdPoint(macd: Option<real>, signal: Option<real>, hist: Option<real>)

  /** The MACD line from index slow - 1 on. */
  function MacdLine(xs: seq<real>, fast: nat, slow: nat): (line: seq<real>)
    requires 1 <= fast < slow
    ensures |line| == if |xs| < slow then 0 else |xs| - slow + 1
    ensures forall j :: 0 <= j < |line| ==> line[j] == EmaAt(xs, fast, j + slow - 1) - EmaAt(xs, slow, j + slow - 1)
  {
    if |xs| < slow then []
    else
      seq(|xs| - slow + 1, j requires 0 <= j < |xs| - slow + 1 =>
        EmaAt(xs, fast, j + slow - 1) - EmaAt(xs, slow, j + slow - 1))
  }

  /** What index i shows: MACD from slow - 1 on, signal and histogram from slow + signal - 2 on. */
  function PointAt(xs: seq<real>, fast: nat, slow: nat, signal: nat, i: nat): MacdPoint
    requires 1 <= fast < slow && 1 <= signal && i < |xs|
  {
    if i < slow - 1 then MacdPoint(None, None, None)
    else
      var line, j := MacdLine(xs, fast, slow), i - (slow - 1);
      if j < signal - 1 then MacdPoint(Some(line[j]), None, None)
      else MacdPoint(Some(line[j]), Some(EmaAt(line, signal, j)), Some(line[j] - EmaAt(line, signal, j)))
  }

  /** MACD is fast minus slow, the histogram MACD minus signal; each is there exactly from its index on. */
  ghost predicate PointReads(p: MacdPoint, xs: seq<real>, fast: nat, slow: nat, signal: nat, i: nat)
    requires 1 <= fast < slow && 1 <= signal && i < |xs|
  {
    && (p.macd.Some? <==> i >= slow - 1)
    && (p.signal.Some? <==> i >= slow + signal - 2) && (p.hist.Some? <==> i >= slow + signal - 2)
    && (p.macd.Some? ==> p.macd.value == EmaAt(xs, fast, i) - EmaAt(xs, slow, i))
    && (p.hist.Some? ==> p.hist.value == p.macd.value - p.signal.value)
    && (p.signal.Some? ==> p.signal.value == EmaAt(MacdLine(xs, fast, slow), signal, i - (slow - 1)))
  }

  lemma PointAtReads(xs: seq<real>, fast: nat, slow: nat, signal: nat, i: nat)
    requires 1 <= fast < slow && 1 <= signal && i < |xs|
    ensures PointReads(PointAt(xs, fast, slow, signal, i), xs, fast, slow, signal, i)
  {
    hide EmaAt;
  }

  method Macd(candles: seq<Candle>, fast: int, slow: int, signal: int) returns (out: Option<seq<MacdPoint>>)
    ensures out.None? <==> fast < 1 || slow < 1 || signal < 1 || fast >= slow
    ensures out.Some? ==>
              && |out.value| == |candles|
              && forall i :: 0 <= i < |candles| ==> out.value[i] == PointAt(Closes(candles), fast, slow, signal, i)
    ensures out.Some? ==> forall i :: 0 <= i < |candles| ==>
              PointReads(out.value[i], Closes(candles), fast, slow, signal, i)
  {
    hide PointAt, PointReads;
    if fast < 1 || slow < 1 || signal < 1 || fast >= slow {
      return None;
    }
    var points := MacdPoints(candles, fast, slow, signal);
    forall i | 0 <= i < |candles| ensures PointReads(points[i], Closes(candles), fast, slow, signal, i) {
      PointAtReads(Closes(candles), fast, slow, signal, i);
    }
    out := Some(points);
  }

  /** The MACD line with its empty prefix. */
  method FullLine(candles: seq<Candle>, fast: nat, slow: nat) returns (line: Series)
    requires 1 <= fast < slow
    ensures |line| == |candles|
    ensures forall i :: 0 <= i < |line| ==>
              line[i] == if i < slow - 1 then None
                         else Some(EmaAt(Closes(candles), fast, i) - EmaAt(Closes(candles), slow, i))
  {
    hide EmaAt;
    var fastE := Ema(candles, fast);
    var slowE := Ema(candles, slow);
    var n := |candles|;
    line := seq(n, i requires 0 <= i < n =>
      if fastE.value[i].None? || slowE.value[i].None? then None
      else Some(fastE.value[i].value - slowE.value[i].value));
  }

  method MacdPoints(candles: seq<Candle>, fast: nat, slow: nat, signal: nat) returns (points: seq<MacdPoint>)
    requires 1 <= fast < slow && 1 <= signal
    ensures |points| == |candles|
    ensures forall i :: 0 <= i < |candles| ==> points[i] == PointAt(Closes(candles), fast, slow, signal, i)
  {
    hide EmaAt;
    var n := |candles|;
    ghost var xs := Closes(candles);
    var line := FullLine(candles, fast, slow);
    assert n >= slow ==> line[slow - 1].Some?;
    var start := FirstValue(line);
    if start == n {
      return seq(n, i => MacdPoint(None, None, None));
    }
    assert start == slow - 1 by {
      assert line[start].Some?;
      assert line[slow - 1].Some?;
    }
    var slice := seq(n - start, j requires 0 <= j < n - start => line[start + j].value);
    assert slice == MacdLine(xs, fast, slow);
    var signals := EmaOfNumbers(slice, signal);
    points := Assemble(line, start, signals);
    forall i | 0 <= i < n ensures points[i] == PointAt(xs, fast, slow, signal, i) {
      if i >= start {
        assert line[i] == Some(slice[i - start]);
      }
    }
  }

  function Assemble(line: Series, start: nat, signals: Series): (points: seq<MacdPoint>)
    requires start <= |line| && |signals| == |line| - start && forall i :: start <= i < |line| ==> line[i].Some?
    ensures |points| == |line|
    ensures forall i :: 0 <= i < start ==> points[i] == MacdPoint(line[i], None, None)
    ensures forall i :: start <= i < |line| ==>
              points[i] == MacdPoint(line[i], signals[i - start],
                                     if signals[i - start].None? then None
                                     else Some(line[i].value - signals[i - start].value))
  {
    seq(|line|, i requires 0 <= i < |line| =>
      if i < start then MacdPoint(line[i], None, None)
      else MacdPoint(line[i], signals[i - start],
                     if signals[i - start].None? then None else Some(line[i].value - signals[i - start].value)))
  }

  /** `findIndex`: the first place with a value, or the length. */
  method FirstValue(line: Series) returns (start: nat)
    ensures start <= |line| && (forall i :: 0 <= i < start ==> line[i].None?)
    ensures start < |line| ==> line[start].Some?
  {
    start := 0;
    while start < |line| && line[start].None?
      invariant start <= |line| && forall i :: 0 <= i < start ==> line[i].None?
    {
      start := start + 1;
    }
  }

  function ScalePoint(p: MacdPoint, a: real): MacdPoint {
    MacdPoint(Scale(p.macd, a), Scale(p.signal, a), Scale(p.hist, a))
  }

  function Times(a: real, v: real): real {
    a * v
  }

  function Scale(v: Option<real>, a: real): Option<real> {
    if v.None? then None else Some(Times(a, v.value))
  }

  /** Prices a*x + b give the MACD, signal and histogram of x, times a. */
  lemma MacdScales(xs: seq<real>, ys: seq<real>, a: real, b: real, fast: nat, slow: nat, signal: nat, i: nat)
    requires Affine(xs, ys, a, b) && 1 <= fast < slow && 1 <= signal && i < |xs|
    ensures PointAt(ys, fast, slow, signal, i) == ScalePoint(PointAt(xs, fast, slow, signal, i), a)
  {
    hide EmaAt;
    if i >= slow - 1 {
      var l, m := MacdLine(xs, fast, slow), MacdLine(ys, fast, slow);
      LineScales(xs, ys, a, b, fast, slow);
      var j := i - (slow - 1);
      ScaleOfSome(l[j], m[j], a);
      if j >= signal - 1 {
        EmaAffine(l, m, a, 0.0, signal, j);
        var s, t := EmaAt(l, signal, j), EmaAt(m, signal, j);
        assert t == a * s;
        DifferenceScales(a, 0.0, l[j], s, m[j], t);
        ScaleOfSome(s, t, a);
        ScaleOfSome(l[j] - s, m[j] - t, a);
      }
    }
  }

  lemma ScaleOfSome(v: real, w: real, a: real)
    requires w == a * v
    ensures Scale(Some(v), a) == Some(w)
  {
    assert Times(a, v) == w;
  }

  lemma DifferenceScales(a: real, b: real, x: real, y: real, x': real, y': real)
    requires x' == a * x + b && y' == a * y + b
    ensures x' - y' == a * (x - y)
  {}

  lemma LineScales(xs: seq<real>, ys: seq<real>, a: real, b: real, fast: nat, slow: nat)
    requires Affine(xs, ys, a, b) && 1 <= fast < slow
    ensures Affine(MacdLine(xs, fast, slow), MacdLine(ys, fast, slow), a, 0.0)
  {
    hide EmaAt;
    var l, m := MacdLine(xs, fast, slow), MacdLine(ys, fast, slow);
    forall j | 0 <= j < |l| ensures m[j] == a * l[j] + 0.0 {
      GapScales(xs, ys, a, b, fast, slow, j + slow - 1, l[j], m[j]);
    }
  }

  lemma GapScales(xs: seq<real>, ys: seq<real>, a: real, b: real, fast: nat, slow: nat, i: nat,
                  gap: real, gap': real)
    requires Affine(xs, ys, a, b) && |xs| == |ys| && 1 <= fast < slow <= i + 1 <= |xs|
    requires gap == EmaAt(xs, fast, i) - EmaAt(xs, slow, i) && gap' == EmaAt(ys, fast, i) - EmaAt(ys, slow, i)
    ensures gap' == a * gap + 0.0
  {
    hide EmaAt, Affine;
    var f, s, f', s' := EmaAt(xs, fast, i), EmaAt(xs, slow, i), EmaAt(ys, fast, i), EmaAt(ys, slow, i);
    assert f' == a * f + b by {
      EmaAffine(xs, ys, a, b, fast, i);
    }
    assert s' == a * s + b by {
      EmaAffine(xs, ys, a, b, slow, i);
    }
    DifferenceScales(a, b, f, s, f', s');
  }

  // ---- RSI --------------------------------------------------------------------------

  function Gain(xs: seq<real>, i: nat): real
    requires 1 <= i < |xs|
  {
    MaxReal(0.0, xs[i] - xs[i - 1])
  }

  function Loss(xs: seq<real>, i: nat): real
    requires 1 <= i < |xs|
  {
    MaxReal(0.0, xs[i - 1] - xs[i])
  }

  function Gains(xs: seq<real>): (gs: seq<real>)
    ensures |gs| == if |xs| == 0 then 0 else |xs| - 1
    ensures forall i :: 0 <= i < |gs| ==> gs[i] == Gain(xs, i + 1)
  {
    if xs == [] then [] else seq(|xs| - 1, i requires 0 <= i < |xs| - 1 => Gain(xs, i + 1))
  }

  function Losses(xs: seq<real>): (ls: seq<real>)
    ensures |ls| == if |xs| == 0 then 0 else |xs| - 1
    ensures forall i :: 0 <= i < |ls| ==> ls[i] == Loss(xs, i + 1)
  {
    if xs == [] then [] else seq(|xs| - 1, i requires 0 <= i < |xs| - 1 => Loss(xs, i + 1))
  }

  /** Wilder smoothing: the mean of the first `period` values, then weighted (period - 1) to 1. */
  function WilderAt(vs: seq<real>, period: nat, i: nat): real
    requires 1 <= period && period - 1 <= i < |vs|
  {
    if i == period - 1 then Mean(vs, 0, period)
    else WilderPull(WilderAt(vs, period, i - 1), vs[i], period)
  }

  function WilderPull(prev: real, v: real, period: nat): real
    requires 1 <= period
  {
    (prev * (period - 1) as real + v) / period as real
  }

  /** Wilder smoothing in closed form: of `period` parts, one is the new value. */
  lemma WilderInParts(vs: seq<real>, period: nat, i: nat)
    requires 1 <= period && period - 1 <= i < |vs|
    ensures i == period - 1 ==> WilderAt(vs, period, i) * period as real == Sum(vs, 0, period)
    ensures i >= period ==>
              WilderAt(vs, period, i) * period as real == WilderAt(vs, period, i - 1) * (period - 1) as real + vs[i]
  {}

  /** A move is a gain or a loss, and not both. */
  lemma GainOrLoss(xs: seq<real>, i: nat)
    requires 1 <= i < |xs|
    ensures Gain(xs, i) >= 0.0 && Loss(xs, i) >= 0.0 && Gain(xs, i) - Loss(xs, i) == xs[i] - xs[i - 1]
    ensures Gain(xs, i) == 0.0 || Loss(xs, i) == 0.0
  {}

  lemma WilderStaysBetween(prev: real, v: real, period: nat, lo: real, hi: real)
    requires 1 <= period && lo <= prev <= hi && lo <= v <= hi
    ensures lo <= WilderPull(prev, v, period) <= hi
  {
    var n := (period - 1) as real;
    NonNegativeProduct(prev - lo, n);
    NonNegativeProduct(hi - prev, n);
    assert period as real == n + 1.0;
    assert prev * n + v - lo * (n + 1.0) == (prev - lo) * n + (v - lo);
    assert hi * (n + 1.0) - (prev * n + v) == (hi - prev) * n + (hi - v);
    DivBounds(prev * n + v, period as real, lo, hi);
  }

  lemma WilderPullScales(prev: real, v: real, prev': real, v': real, period: nat, a: real)
    requires 1 <= period && prev' == a * prev && v' == a * v
    ensures WilderPull(prev', v', period) == a * WilderPull(prev, v, period)
  {
    var n, m := (period - 1) as real, period as real;
    assert (a * prev) * n + a * v == a * (prev * n + v) + m * 0.0;
    DivScale(a, prev * n + v, 0.0, m);
  }

  /** Wilder smoothing stays between the least and the greatest value seen. */
  lemma {:induction false} WilderBounds(vs: seq<real>, period: nat, i: nat, lo: real, hi: real)
    requires 1 <= period && period - 1 <= i < |vs| && Within(vs, i + 1, lo, hi)
    ensures lo <= WilderAt(vs, period, i) <= hi
    decreases i
  {
    hide WilderPull, Mean;
    if i == period - 1 {
      MeanBounds(vs, 0, period, lo, hi);
    } else {
      WilderBounds(vs, period, i - 1, lo, hi);
      WilderStaysBetween(WilderAt(vs, period, i - 1), vs[i], period, lo, hi);
    }
  }

  lemma {:induction false} WilderScales(vs: seq<real>, ws: seq<real>, a: real, period: nat, i: nat)
    requires Affine(vs, ws, a, 0.0) && 1 <= period && period - 1 <= i < |vs|
    ensures WilderAt(ws, period, i) == a * WilderAt(vs, period, i)
    decreases i
  {
    hide WilderPull, Mean;
    if i == period - 1 {
      MeanAffine(vs, ws, a, 0.0, 0, period);
    } else {
      WilderScales(vs, ws, a, period, i - 1);
      WilderPullScales(WilderAt(vs, period, i - 1), vs[i], WilderAt(ws, period, i - 1), ws[i], period, a);
    }
  }

  function RsiFromAverages(avgGain: real, avgLoss: real): real
    requires avgGain >= 0.0 && avgLoss >= 0.0
  {
    if avgLoss == 0.0 then 100.0
    else
      var rs := avgGain / avgLoss;
      RatioIsNonNegative(avgGain, avgLoss);
      100.0 - 100.0 / (1.0 + rs)
  }

  lemma RatioIsNonNegative(g: real, l: real)
    requires g >= 0.0 && l > 0.0
    ensures g / l >= 0.0
  {
    DivBounds(g, l, 0.0, g / l);
  }

  lemma QuotientUnique(q: real, s: real, n: real)
    requires n != 0.0 && q * n == s
    ensures s / n == q
  {}

  /** RSI is the share of gains in all movement, in percent; 100 when nothing moves. */
  lemma RsiIsGainShare(g: real, l: real)
    requires g >= 0.0 && l >= 0.0
    ensures RsiFromAverages(g, l) == if g + l == 0.0 then 100.0 else 100.0 * g / (g + l)
    ensures 0.0 <= RsiFromAverages(g, l) <= 100.0
  {
    if g + l > 0.0 {
      var share := g / (g + l);
      DivBounds(g, g + l, 0.0, 1.0);
      assert share * (g + l) == g;
      assert (100.0 * share) * (g + l) == 100.0 * g;
      QuotientUnique(100.0 * share, 100.0 * g, g + l);
      if l == 0.0 {
        QuotientUnique(100.0, 100.0 * g, g);
      } else {
        var rs := g / l;
        RatioIsNonNegative(g, l);
        assert rs * l == g;
        assert (1.0 + rs) * l == g + l;
        assert (1.0 - share) * (g + l) == l;
        assert (1.0 - share) * (1.0 + rs) * l == l;
        CancelFactor((1.0 - share) * (1.0 + rs), l);
        assert (100.0 - 100.0 * share) * (1.0 + rs) == 100.0 * ((1.0 - share) * (1.0 + rs));
        QuotientUnique(100.0 - 100.0 * share, 100.0, 1.0 + rs);
      }
    }
  }

  lemma CancelFactor(x: real, l: real)
    requires l != 0.0 && x * l == l
    ensures x == 1.0
  {
    QuotientUnique(x, l, l);
    QuotientUnique(1.0, l, l);
  }

  /** The RSI at index i, from period on. */
  function RsiAt(xs: seq<real>, period: nat, i: nat): real
    requires 1 <= period <= i < |xs|
  {
    AveragesAreNonNegative(xs, period, i);
    RsiFromAverages(WilderAt(Gains(xs), period, i - 1), WilderAt(Losses(xs), period, i - 1))
  }

  lemma AveragesAreNonNegative(xs: seq<real>, period: nat, i: nat)
    requires 1 <= period <= i < |xs|
    ensures WilderAt(Gains(xs), period, i - 1) >= 0.0 && WilderAt(Losses(xs), period, i - 1) >= 0.0
  {
    WilderNonNegative(Gains(xs), period, i - 1);
    WilderNonNegative(Losses(xs), period, i - 1);
  }

  lemma {:induction false} WilderNonNegative(vs: seq<real>, period: nat, i: nat)
    requires 1 <= period && period - 1 <= i < |vs| && forall j :: 0 <= j < |vs| ==> vs[j] >= 0.0
    ensures WilderAt(vs, period, i) >= 0.0
  {
    var most := Greatest(vs, i + 1);
    WilderBounds(vs, period, i, 0.0, most);
  }

  function Greatest(vs: seq<real>, n: nat): (m: real)
    requires n <= |vs|
    ensures forall j :: 0 <= j < n ==> vs[j] <= m
  {
    if n == 0 then 0.0 else MaxReal(vs[n - 1], Greatest(vs, n - 1))
  }

  /** Every RSI value is a percentage. */
  lemma RsiInRange(xs: seq<real>, period: nat, i: nat)
    requires 1 <= period <= i < |xs|
    ensures 0.0 <= RsiAt(xs, period, i) <= 100.0
  {
    AveragesAreNonNegative(xs, period, i);
    RsiIsGainShare(WilderAt(Gains(xs), period, i - 1), WilderAt(Losses(xs), period, i - 1));
  }

  /** RSI is the share of Wilder's average gain in both averages, each over the moves up to here. */
  lemma RsiAtIsShare(xs: seq<real>, period: nat, i: nat)
    requires 1 <= period <= i < |xs|
    ensures var g, l := WilderAt(Gains(xs), period, i - 1), WilderAt(Losses(xs), period, i - 1);
            && |Gains(xs)| == |Losses(xs)| == |xs| - 1
            && Gains(xs)[i - 1] - Losses(xs)[i - 1] == xs[i] - xs[i - 1]
            && RsiAt(xs, period, i) == if g + l == 0.0 then 100.0 else 100.0 * g / (g + l)
  {
    hide WilderAt, RsiFromAverages;
    AveragesAreNonNegative(xs, period, i);
    RsiIsGainShare(WilderAt(Gains(xs), period, i - 1), WilderAt(Losses(xs), period, i - 1));
    GainOrLoss(xs, i);
  }

  lemma GainsScale(xs: seq<real>, ys: seq<real>, a: real, b: real)
    requires Affine(xs, ys, a, b) && a > 0.0
    ensures Affine(Gains(xs), Gains(ys), a, 0.0) && Affine(Losses(xs), Losses(ys), a, 0.0)
  {
    hide Gain, Loss;
    var gx, gy, lx, ly := Gains(xs), Gains(ys), Losses(xs), Losses(ys);
    forall i | 0 <= i < |gx| ensures gy[i] == a * gx[i] + 0.0 && ly[i] == a * lx[i] + 0.0 {
      MoveScales(xs, ys, a, b, i + 1);
    }
  }

  lemma MoveScales(xs: seq<real>, ys: seq<real>, a: real, b: real, i: nat)
    requires Affine(xs, ys, a, b) && a > 0.0 && 1 <= i < |xs|
    ensures Gain(ys, i) == a * Gain(xs, i) && Loss(ys, i) == a * Loss(xs, i)
  {
    DifferenceScales(a, b, xs[i], xs[i - 1], ys[i], ys[i - 1]);
    DifferenceScales(a, b, xs[i - 1], xs[i], ys[i - 1], ys[i]);
    PositivePartScales(xs[i] - xs[i - 1], ys[i] - ys[i - 1], a);
    PositivePartScales(xs[i - 1] - xs[i], ys[i - 1] - ys[i], a);
  }

  lemma PositivePartScales(d: real, d': real, a: real)
    requires a > 0.0 && d' == a * d
    ensures MaxReal(0.0, d') == a * MaxReal(0.0, d)
  {
    if d > 0.0 {
      ProductOrder(0.0, d, a);
    } else {
      NonNegativeProduct(a, -d);
      assert a * -d == -(a * d);
    }
  }

  /** RSI does not depend on the unit or the origin of the prices. */
  lemma RsiIsScaleFree(xs: seq<real>, ys: seq<real>, a: real, b: real, period: nat, i: nat)
    requires Affine(xs, ys, a, b) && a > 0.0 && 1 <= period <= i < |xs|
    ensures RsiAt(ys, period, i) == RsiAt(xs, period, i)
  {
    hide WilderAt;
    GainsScale(xs, ys, a, b);
    WilderScales(Gains(xs), Gains(ys), a, period, i - 1);
    WilderScales(Losses(xs), Losses(ys), a, period, i - 1);
    AveragesAreNonNegative(xs, period, i);
    AveragesAreNonNegative(ys, period, i);
    RatioIsScaleFree(WilderAt(Gains(xs), period, i - 1), WilderAt(Losses(xs), period, i - 1), a);
  }

  lemma RatioIsScaleFree(g: real, l: real, a: real)
    requires g >= 0.0 && l >= 0.0 && a > 0.0 && a * g >= 0.0 && a * l >= 0.0
    ensures RsiFromAverages(a * g, a * l) == RsiFromAverages(g, l)
  {
    if l > 0.0 {
      ProductOrder(0.0, l, a);
      var rs := g / l;
      assert rs * l == g;
      assert rs * (a * l) == a * g;
      QuotientUnique(rs, a * g, a * l);
    }
  }

  /** Wilder's RSI, empty exactly before index `period`. A period below 1 throws. */
  method Rsi(candles: seq<Candle>, period: int) returns (out: Option<Series>)
    ensures out.None? <==> period < 1
    ensures out.Some? ==>
              && |out.value| == |candles|
              && forall i :: 0 <= i < |candles| ==>
                   out.value[i] == if i < period then None else Some(RsiAt(Closes(candles), period, i))
  {
    if period < 1 {
      return None;
    }
    var xs := Closes(candles);
    if |xs| <= period {
      return Some(AllNull(|xs|));
    }
    var values := RsiValues(xs, period);
    var padded := PadFront(values, period);
    out := Some(padded);
  }

  /** The averages of the first `period` gains and losses. */
  method RsiSeed(xs: seq<real>, period: nat) returns (avgGain: real, avgLoss: real)
    requires 1 <= period < |xs|
    ensures avgGain == WilderAt(Gains(xs), period, period - 1) && avgLoss == WilderAt(Losses(xs), period, period - 1)
  {
    var gains, losses := 0.0, 0.0;
    for i := 1 to period + 1
      invariant gains == Sum(Gains(xs), 0, i - 1) && losses == Sum(Losses(xs), 0, i - 1)
    {
      var delta := xs[i] - xs[i - 1];
      assert Gains(xs)[i - 1] == Gain(xs, i) && Losses(xs)[i - 1] == Loss(xs, i);
      if delta >= 0.0 {
        gains := gains + delta;
      } else {
        losses := losses + -delta;
      }
    }
    avgGain, avgLoss := gains / period as real, losses / period as real;
  }

  method RsiValues(xs: seq<real>, period: nat) returns (values: seq<real>)
    requires 1 <= period < |xs|
    ensures |values| == |xs| - period
    ensures forall j :: 0 <= j < |values| ==> values[j] == RsiAt(xs, period, j + period)
  {
    hide RsiFromAverages, Mean;
    ghost var gs, ls := Gains(xs), Losses(xs);
    var avgGain, avgLoss := RsiSeed(xs, period);
    AveragesAreNonNegative(xs, period, period);
    values := [RsiFromAverages(avgGain, avgLoss)];
    for i := period + 1 to |xs|
      invariant avgGain == WilderAt(gs, period, i - 2) && avgLoss == WilderAt(ls, period, i - 2)
      invariant |values| == i - period
      invariant forall j :: 0 <= j < |values| ==> values[j] == RsiAt(xs, period, j + period)
    {
      var delta := xs[i] - xs[i - 1];
      var gain := if delta > 0.0 then delta else 0.0;
      var loss := if delta < 0.0 then -delta else 0.0;
      assert gs[i - 1] == gain && ls[i - 1] == loss;
      avgGain := WilderPull(avgGain, gain, period);
      avgLoss := WilderPull(avgLoss, loss, period);
      AveragesAreNonNegative(xs, period, i);
      values := values + [RsiFromAverages(avgGain, avgLoss)];
    }
  }

  // ---- ATR --------------------------------------------------------------------------

  function Abs(x: real): real {
    if x < 0.0 then -x else x
  }

  function TrueRange(candles: seq<Candle>, i: nat): real
    requires i < |candles|
  {
    var c := candles[i];
    if i == 0 then c.h - c.l
    else
      var prev := candles[i - 1].c;
      MaxReal(c.h - c.l, MaxReal(Abs(c.h - prev), Abs(c.l - prev)))
  }

  function TrueRanges(candles: seq<Candle>): (tr: seq<real>)
    ensures |tr| == |candles|
    ensures forall i :: 0 <= i < |tr| ==> tr[i] == TrueRange(candles, i)
  {
    seq(|candles|, i requires 0 <= i < |candles| => TrueRange(candles, i))
  }

  /** The true range is how far price reached from the previous close and within the candle. */
  lemma TrueRangeCovers(candles: seq<Candle>, i: nat)
    requires 0 < i < |candles| && candles[i].h >= candles[i].l
    ensures var hi := MaxReal(candles[i].h, candles[i - 1].c);
            var lo := MinReal(candles[i].l, candles[i - 1].c);
            TrueRange(candles, i) == hi - lo
  {}

  /** The first candle has no previous close: its range stands in. */
  lemma FirstTrueRange(candles: seq<Candle>)
    requires candles != []
    ensures TrueRange(candles, 0) == candles[0].h - candles[0].l
  {}

  /** An ATR value lies between the least and the greatest true range so far, so it is not negative. */
  lemma AtrBounds(candles: seq<Candle>, period: nat, i: nat, lo: real, hi: real)
    requires 1 <= period && period - 1 <= i < |candles|
    requires forall j :: 0 <= j <= i ==> candles[j].h >= candles[j].l
    requires Within(TrueRanges(candles), i + 1, lo, hi)
    ensures lo <= WilderAt(TrueRanges(candles), period, i) <= hi
    ensures WilderAt(TrueRanges(candles), period, i) >= 0.0
  {
    var tr := TrueRanges(candles);
    WilderBounds(tr, period, i, lo, hi);
    forall j | 0 <= j <= i ensures tr[j] >= 0.0 {
      assert tr[j] == TrueRange(candles, j);
    }
    WilderBounds(tr, period, i, 0.0, Greatest(tr, i + 1));
  }

  /** Of `period` parts of a value, one is the new true range and the others the value before. */
  ghost predicate IsAtrStep(out: Series, candles: seq<Candle>, period: nat, i: nat)
    requires 1 <= i < |out| == |candles| && 1 <= period
  {
    && out[i - 1].Some? && out[i].Some?
    && out[i].value * period as real == out[i - 1].value * (period - 1) as real + TrueRange(candles, i)
  }

  lemma AtrStepReads(out: Series, candles: seq<Candle>, period: nat, i: nat)
    requires 1 <= period <= i < |out| == |candles|
    requires out[i - 1] == Some(WilderAt(TrueRanges(candles), period, i - 1))
    requires out[i] == Some(WilderAt(TrueRanges(candles), period, i))
    ensures IsAtrStep(out, candles, period, i)
  {
    hide WilderAt, WilderPull, Mean, TrueRange;
    WilderInParts(TrueRanges(candles), period, i);
  }

  /** Wilder's ATR, empty exactly before index period - 1, or everywhere up to `period` candles. */
  method Atr(candles: seq<Candle>, period: int) returns (out: Option<Series>)
    ensures out.None? <==> period < 1
    ensures out.Some? ==>
              && |out.value| == |candles|
              && forall i :: 0 <= i < |candles| ==>
                   out.value[i] == if |candles| <= period || i < period - 1 then None
                                   else Some(WilderAt(TrueRanges(candles), period, i))
    ensures out.Some? ==> forall i :: period <= i < |candles| ==> IsAtrStep(out.value, candles, period, i)
  {
    if period < 1 {
      return None;
    }
    hide WilderAt, TrueRange, IsAtrStep;
    if |candles| <= period {
      return Some(AllNull(|candles|));
    }
    var tr := CollectTrueRanges(candles);
    var series := WilderOfNumbers(tr, period);
    forall i | period <= i < |candles| ensures IsAtrStep(series, candles, period, i) {
      AtrStepReads(series, candles, period, i);
    }
    out := Some(series);
  }

  method WilderOfNumbers(tr: seq<real>, period: nat) returns (out: Series)
    requires 1 <= period <= |tr|
    ensures |out| == |tr|
    ensures forall i :: 0 <= i < |tr| ==> out[i] == if i < period - 1 then None else Some(WilderAt(tr, period, i))
  {
    var values := WilderValues(tr, period);
    out := PadFront(values, period - 1);
  }

  method CollectTrueRanges(candles: seq<Candle>) returns (tr: seq<real>)
    ensures tr == TrueRanges(candles)
  {
    tr := [];
    for i := 0 to |candles|
      invariant |tr| == i && forall j :: 0 <= j < i ==> tr[j] == TrueRange(candles, j)
    {
      var c := candles[i];
      if i == 0 {
        tr := tr + [c.h - c.l];
        continue;
      }
      var prev := candles[i - 1];
      var a, b, d := c.h - c.l, Abs(c.h - prev.c), Abs(c.l - prev.c);
      tr := tr + [MaxReal(a, MaxReal(b, d))];
    }
  }

  /** Wilder smoothing from its first value on. */
  method WilderValues(tr: seq<real>, period: nat) returns (values: seq<real>)
    requires 1 <= period <= |tr|
    ensures |values| == |tr| - period + 1
    ensures forall j :: 0 <= j < |values| ==> values[j] == WilderAt(tr, period, j + period - 1)
  {
    var seed := 0.0;
    for i := 0 to period
      invariant seed == Sum(tr, 0, i)
    {
      seed := seed + tr[i];
    }
    var prev := seed / period as real;
    values := [prev];
    for i := period to |tr|
      invariant |values| == i - period + 1 && prev == WilderAt(tr, period, i - 1)
      invariant forall j :: 0 <= j < |values| ==> values[j] == WilderAt(tr, period, j + period - 1)
    {
      prev := (prev * (period - 1) as real + tr[i]) / period as real;
      values := values + [prev];
    }
  }
}

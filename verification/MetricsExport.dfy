/** A whole run of metric calls, from the registry to what the receiver of the export decodes. */
module MetricsExport {
  import opened Common
  import opened MetricKeys
  import opened MetricsRegistry
  import opened RemoteWrite
  import opened Wire
  import Utf8

  datatype Call =
    | Count(metric: Metric, amount: real)
    | Measure(metric: Metric, value: Num)

  function KeyOf(c: Collation, m: Metric): string {
    KeyFor(c, m.name, m.tags)
  }

  /** The sum of the increments under this key. */
  function Counted(c: Collation, calls: seq<Call>, key: string): real {
    if calls == [] then 0.0
    else
      var last := calls[|calls| - 1];
      Counted(c, calls[..|calls| - 1], key)
      + if last.Count? && KeyOf(c, last.metric) == key then last.amount else 0.0
  }

  /** The finite observations under this key, in order. */
  function Measured(c: Collation, calls: seq<Call>, key: string): seq<real> {
    if calls == [] then []
    else
      var last := calls[|calls| - 1];
      Measured(c, calls[..|calls| - 1], key)
      + if last.Measure? && last.value.Finite? && KeyOf(c, last.metric) == key then [last.value.r] else []
  }

  predicate IsCount(c: Collation, call: Call, key: string) {
    call.Count? && KeyOf(c, call.metric) == key
  }

  predicate IsMeasure(c: Collation, call: Call, key: string) {
    call.Measure? && call.value.Finite? && KeyOf(c, call.metric) == key
  }

  ghost predicate CountKeys(c: Collation, calls: seq<Call>, key: string) {
    exists i :: 0 <= i < |calls| && IsCount(c, calls[i], key)
  }

  ghost predicate MeasureKeys(c: Collation, calls: seq<Call>, key: string) {
    exists i :: 0 <= i < |calls| && IsMeasure(c, calls[i], key)
  }

  /** The registry holds what these calls recorded, and nothing else. */
  ghost predicate Holds(counters: map<string, real>, history: map<string, seq<real>>, c: Collation, calls: seq<Call>) {
    && (forall key :: key in counters <==> CountKeys(c, calls, key))
    && (forall key :: key in counters ==> counters[key] == Counted(c, calls, key))
    && (forall key :: key in history <==> MeasureKeys(c, calls, key))
    && (forall key :: key in history ==> history[key] == Measured(c, calls, key))
  }

  function CountersWith(counters: map<string, real>, c: Collation, call: Call): map<string, real> {
    if !call.Count? then counters
    else
      var key := KeyOf(c, call.metric);
      counters[key := (if key in counters then counters[key] else 0.0) + call.amount]
  }

  function HistoryWith(history: map<string, seq<real>>, c: Collation, call: Call): map<string, seq<real>> {
    if !call.Measure? || !call.value.Finite? then history
    else
      var key := KeyOf(c, call.metric);
      history[key := (if key in history then history[key] else []) + [call.value.r]]
  }

  lemma {:induction false} NothingCounted(c: Collation, calls: seq<Call>, key: string)
    ensures !CountKeys(c, calls, key) ==> Counted(c, calls, key) == 0.0
    ensures !MeasureKeys(c, calls, key) ==> Measured(c, calls, key) == []
  {
    hide KeyOf;
    if calls != [] {
      var n := |calls| - 1;
      assert forall i :: 0 <= i < n ==> calls[..n][i] == calls[i];
      NothingCounted(c, calls[..n], key);
    }
  }

  lemma CallIsLast(c: Collation, calls: seq<Call>, call: Call, key: string)
    ensures CountKeys(c, calls + [call], key) <==> CountKeys(c, calls, key) || IsCount(c, call, key)
    ensures MeasureKeys(c, calls + [call], key) <==> MeasureKeys(c, calls, key) || IsMeasure(c, call, key)
    ensures Counted(c, calls + [call], key)
         == Counted(c, calls, key) + if IsCount(c, call, key) then call.amount else 0.0
    ensures Measured(c, calls + [call], key)
         == Measured(c, calls, key) + if IsMeasure(c, call, key) then [call.value.r] else []
  {
    hide KeyOf;
    var all := calls + [call];
    assert all[..|calls|] == calls && all[|calls|] == call;
    assert forall i :: 0 <= i < |calls| ==> all[i] == calls[i];
  }

  lemma HoldsNext(counters: map<string, real>, history: map<string, seq<real>>, c: Collation, calls: seq<Call>,
                  call: Call)
    requires Holds(counters, history, c, calls)
    ensures Holds(CountersWith(counters, c, call), HistoryWith(history, c, call), c, calls + [call])
  {
    hide KeyOf, Counted, Measured, CountKeys, MeasureKeys;
    var counters', history' := CountersWith(counters, c, call), HistoryWith(history, c, call);
    forall key
      ensures key in counters' <==> CountKeys(c, calls + [call], key)
      ensures key in counters' ==> counters'[key] == Counted(c, calls + [call], key)
      ensures key in history' <==> MeasureKeys(c, calls + [call], key)
      ensures key in history' ==> history'[key] == Measured(c, calls + [call], key)
    {
      CallIsLast(c, calls, call, key);
      NothingCounted(c, calls, key);
    }
  }

  lemma HoldsNothing(c: Collation)
    ensures Holds(map[], map[], c, [])
  {}

  /** One call. */
  method Perform(registry: Registry, call: Call)
    requires registry.Valid()
    modifies registry, registry.Parts()
    ensures registry.Valid() && fresh(registry.Parts() - old(registry.Parts()))
    ensures registry.counters == CountersWith(old(registry.counters), registry.collation, call)
    ensures registry.History() == HistoryWith(old(registry.History()), registry.collation, call)
  {
    hide KeyFor, Accumulator.Valid;
    match call {
      case Count(m, amount) => registry.Increment(m.name, amount, m.tags);
      case Measure(m, value) => registry.Observe(m.name, value, m.tags);
    }
  }

  /** A new registry after these calls. */
  method RecordAll(c: Collation, calls: seq<Call>) returns (registry: Registry)
    ensures registry.Valid() && registry.collation == c
    ensures Holds(registry.counters, registry.History(), c, calls)
  {
    hide Holds, CountersWith, HistoryWith, Registry.Valid;
    registry := new Registry(c);
    HoldsNothing(c);
    assert calls[..0] == [];
    for i := 0 to |calls|
      invariant fresh(registry) && fresh(registry.Parts()) && registry.Valid() && registry.collation == c
      invariant Holds(registry.counters, registry.History(), c, calls[..i])
    {
      HoldsNext(registry.counters, registry.History(), c, calls[..i], calls[i]);
      assert calls[..i + 1] == calls[..i] + [calls[i]];
      Perform(registry, calls[i]);
    }
    assert calls[..|calls|] == calls;
  }

  /** A metric with its tags as the key shows them. */
  function Shown(c: Collation, m: Metric): Metric {
    Metric(m.name, Arranged(c, m.tags))
  }

  lemma ParsedIsShown(c: Collation, m: Metric)
    requires Printable(m)
    ensures Parsed(KeyOf(c, m)) == Shown(c, m)
  {
    KeyRoundTripIff(c, m.name, m.tags);
  }

  /**
   The receiver sees, for every metric that was ever counted or measured, its name, the job and its
   tags, with the sum of its increments, or with the bucket counts and the summary of its
   observations.
   */
  ghost predicate ShowsCalls(got: seq<Series>, c: Collation, calls: seq<Call>, counterKeys: seq<string>,
                             histogramKeys: seq<string>, t: Target) {
    var n := |counterKeys|;
    && |got| == n + 22 * |histogramKeys|
    && (forall i :: 0 <= i < |calls| && calls[i].Count? ==>
          exists j :: 0 <= j < n && counterKeys[j] == KeyOf(c, calls[i].metric)
            && ShowsCount(got[j], c, calls, calls[i].metric, t))
    && (forall i :: 0 <= i < |calls| && calls[i].Measure? && calls[i].value.Finite? ==>
          exists h :: 0 <= h < |histogramKeys| && histogramKeys[h] == KeyOf(c, calls[i].metric)
            && ShowsMeasures(got[n + 22 * h..n + 22 * h + 22], c, calls, calls[i].metric, t))
  }

  ghost predicate ShowsCount(got: Series, c: Collation, calls: seq<Call>, m: Metric, t: Target) {
    IsSeries(got, m.name, Arranged(c, m.tags), Counted(c, calls, KeyOf(c, m)), t)
  }

  ghost predicate ShowsMeasures(got: seq<Series>, c: Collation, calls: seq<Call>, m: Metric, t: Target) {
    Reports(got, Shown(c, m), Measured(c, calls, KeyOf(c, m)), t)
  }

  lemma ShownIsShown(got: seq<Series>, counters: map<string, real>, history: map<string, seq<real>>, c: Collation,
                     calls: seq<Call>, counterKeys: seq<string>, histogramKeys: seq<string>, t: Target)
    requires Holds(counters, history, c, calls) && forall i :: 0 <= i < |calls| ==> Printable(calls[i].metric)
    requires (forall k :: k in counterKeys <==> k in counters) && (forall k :: k in histogramKeys <==> k in history)
    requires Shows(got, counters, history, counterKeys, histogramKeys, t)
    ensures ShowsCalls(got, c, calls, counterKeys, histogramKeys, t)
  {
    hide KeyOf, Reports, IsSeries, Counted, Measured, Printable, ParsedKey, Arranged;
    var n := |counterKeys|;
    forall i | 0 <= i < |calls| && calls[i].Count?
      ensures exists j :: 0 <= j < n && counterKeys[j] == KeyOf(c, calls[i].metric)
                && ShowsCount(got[j], c, calls, calls[i].metric, t)
    {
      var key := KeyOf(c, calls[i].metric);
      assert IsCount(c, calls[i], key);
      assert key in counterKeys;
      var j :| 0 <= j < n && counterKeys[j] == key;
      ParsedIsShown(c, calls[i].metric);
      assert ShowsCount(got[j], c, calls, calls[i].metric, t);
    }
    forall i | 0 <= i < |calls| && calls[i].Measure? && calls[i].value.Finite?
      ensures exists h :: 0 <= h < |histogramKeys| && histogramKeys[h] == KeyOf(c, calls[i].metric)
                && ShowsMeasures(got[n + 22 * h..n + 22 * h + 22], c, calls, calls[i].metric, t)
    {
      var key := KeyOf(c, calls[i].metric);
      assert IsMeasure(c, calls[i], key);
      assert key in histogramKeys;
      var h :| 0 <= h < |histogramKeys| && histogramKeys[h] == key;
      ParsedIsShown(c, calls[i].metric);
      assert ShowsMeasures(got[n + 22 * h..n + 22 * h + 22], c, calls, calls[i].metric, t);
    }
  }

  /**
   Recording, snapshot, export and decoding in one: from calls on printable metrics to what the
   receiver sees. The keys are listed in the registry's iteration order.
   */
  method RecordAndExport(c: Collation, calls: seq<Call>, counterKeys: seq<string>, histogramKeys: seq<string>,
                         t: Target)
    returns (bytes: seq<Utf8.Byte>)
    requires forall i :: 0 <= i < |calls| ==> Printable(calls[i].metric)
    requires NoRepeats(counterKeys) && NoRepeats(histogramKeys)
    requires forall k :: k in counterKeys <==> CountKeys(c, calls, k)
    requires forall k :: k in histogramKeys <==> MeasureKeys(c, calls, k)
    ensures exists request :: bytes == RequestBytes(request)
              && ShowsCalls(request, c, calls, counterKeys, histogramKeys, t)
              && (AllEncodable(request) ==> DecodeRequest(bytes) == Some(request))
  {
    hide Printable, RequestBytes, DecodeRequest, AllEncodable, Shows, ShowsCalls, CountKeys, MeasureKeys,
         Registry.Valid;
    var registry := RecordAll(c, calls);
    bytes := ExportRegistry(registry, counterKeys, histogramKeys, t);
    ghost var request :| bytes == RequestBytes(request)
                         && Shows(request, registry.counters, registry.History(), counterKeys, histogramKeys, t)
                         && (AllEncodable(request) ==> DecodeRequest(bytes) == Some(request));
    ShownIsShown(request, registry.counters, registry.History(), c, calls, counterKeys, histogramKeys, t);
  }

  /** What is under one key is one metric, when its tags do not tie. */
  lemma SameKeyIff(c: Collation, a: Metric, b: Metric)
    requires Printable(a) && Printable(b) && NoTies(c, multiset(a.tags))
    ensures KeyOf(c, a) == KeyOf(c, b) <==> a.name == b.name && multiset(a.tags) == multiset(b.tags)
  {
    if KeyOf(c, a) == KeyOf(c, b) {
      KeyIsInjective(c, a.name, a.tags, b.name, b.tags);
    } else if a.name == b.name && multiset(a.tags) == multiset(b.tags) {
      KeyIgnoresTagOrder(c, a.name, a.tags, b.tags);
    }
  }
}

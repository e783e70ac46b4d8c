/** From a metrics registry to the bytes of a remote-write request, before compression, and back. */
module RemoteWrite {
  import opened Common
  import opened MetricKeys
  import opened MetricsRegistry
  import opened Wire
  import Utf8

  /** Where and when a snapshot is exported, and the 64 bits of the double for each number. */
  datatype Target = Target(job: string, at: int, bits: real -> Bits)

  /** Registry entries in iteration order. */
  datatype Snapshot = Snapshot(counters: seq<(string, real)>, histograms: seq<(string, Summary)>)

  /** A metric as callers name it, before it is printed to a key. */
  datatype Metric = Metric(name: string, tags: seq<Tag>)

  // ---- Bounds as text ---------------------------------------------------------------

  /** `String(bound)` */
  function Decimal(n: nat): (text: string)
    ensures text != "" && AllDigits(text)
  {
    if n < 10 then [Digit(n)] else Decimal(n / 10) + [Digit(n % 10)]
  }

  function Digit(d: nat): char
    requires d < 10
  {
    ('0' as int + d) as char
  }

  /** A bound reads back from its `le` label, so different buckets have different labels. */
  lemma {:induction false} DecimalRoundTrip(n: nat)
    ensures Number(Decimal(n)) == n
  {
    var text := Decimal(n);
    if n < 10 {
      assert text[..0] == "";
    } else {
      DecimalRoundTrip(n / 10);
      assert text[..|text| - 1] == Decimal(n / 10);
    }
  }

  // ---- The pending series -----------------------------------------------------------

  function AsLabels(tags: seq<Tag>): (labels: seq<Label>)
    ensures |labels| == |tags|
    ensures forall i :: 0 <= i < |tags| ==> labels[i] == Label(tags[i].0, tags[i].1)
  {
    if tags == [] then []
    else AsLabels(tags[..|tags| - 1]) + [Label(tags[|tags| - 1].0, tags[|tags| - 1].1)]
  }

  /** One metric of the request: `__name__` and `job` come before the tags. */
  function ToSeries(name: string, tags: seq<Tag>, value: real, t: Target): Series {
    Series([Label("__name__", name), Label("job", t.job)] + AsLabels(tags), [Sample(t.bits(value), t.at)])
  }

  /** The bucket series of one bound. */
  function Bucket(m: Metric, le: string, count: real, t: Target): Series {
    ToSeries(m.name + "_bucket", m.tags + [("le", le)], count, t)
  }

  /** A missing bucket counts as empty. */
  function CountAt(s: Summary, i: nat): real {
    if i < |s.buckets| then s.buckets[i] as real else 0.0
  }

  function BucketSeries(m: Metric, s: Summary, t: Target, n: nat): (out: seq<Series>)
    requires n <= |BOUNDS|
    ensures |out| == n
  {
    if n == 0 then []
    else BucketSeries(m, s, t, n - 1) + [Bucket(m, Decimal(BOUNDS[n - 1]), CountAt(s, n - 1), t)]
  }

  lemma {:induction false} BucketSeriesAt(m: Metric, s: Summary, t: Target, n: nat, i: nat)
    requires i < n <= |BOUNDS|
    ensures BucketSeries(m, s, t, n)[i] == Bucket(m, Decimal(BOUNDS[i]), CountAt(s, i), t)
  {
    hide Bucket, Decimal, CountAt;
    if i < n - 1 {
      BucketSeriesAt(m, s, t, n - 1, i);
    }
  }

  /** The series of a histogram: 16 buckets, the total bucket and the five summary values. */
  function HistogramSeries(m: Metric, s: Summary, t: Target): (out: seq<Series>)
    ensures |out| == 22
  {
    BucketSeries(m, s, t, |BOUNDS|)
    + [Bucket(m, "+Inf", s.count as real, t),
       ToSeries(m.name + "_count", m.tags, s.count as real, t),
       ToSeries(m.name + "_sum", m.tags, s.sum, t),
       ToSeries(m.name + "_avg", m.tags, s.avg, t),
       ToSeries(m.name + "_min", m.tags, s.min, t),
       ToSeries(m.name + "_max", m.tags, s.max, t)]
  }

  function CountersRequest(counters: seq<(Metric, real)>, t: Target): (out: seq<Series>)
    ensures |out| == |counters|
    ensures forall i :: 0 <= i < |out| ==> out[i] == ToSeries(counters[i].0.name, counters[i].0.tags, counters[i].1, t)
  {
    if counters == [] then []
    else
      var (m, value) := counters[|counters| - 1];
      CountersRequest(counters[..|counters| - 1], t) + [ToSeries(m.name, m.tags, value, t)]
  }

  function HistogramsRequest(histograms: seq<(Metric, Summary)>, t: Target): (out: seq<Series>)
    ensures |out| == 22 * |histograms|
  {
    if histograms == [] then []
    else
      var (m, s) := histograms[|histograms| - 1];
      HistogramsRequest(histograms[..|histograms| - 1], t) + HistogramSeries(m, s, t)
  }

  /** Each histogram's 22 series stand together, in the order of the histograms. */
  lemma {:induction false} HistogramsRequestAt(histograms: seq<(Metric, Summary)>, t: Target, h: nat)
    requires h < |histograms|
    ensures HistogramsRequest(histograms, t)[22 * h..22 * h + 22]
         == HistogramSeries(histograms[h].0, histograms[h].1, t)
  {
    hide HistogramSeries;
    var n := |histograms| - 1;
    var before := HistogramsRequest(histograms[..n], t);
    var last := HistogramSeries(histograms[n].0, histograms[n].1, t);
    assert HistogramsRequest(histograms, t) == before + last;
    if h < n {
      HistogramsRequestAt(histograms[..n], t, h);
      assert (before + last)[22 * h..22 * h + 22] == before[22 * h..22 * h + 22];
    } else {
      assert (before + last)[22 * h..22 * h + 22] == last;
    }
  }

  /** The parsed metric of a key. */
  function Parsed(key: string): Metric {
    Metric(ParsedKey(key).0, ParsedKey(key).1)
  }

  function ParsedEntries<N>(entries: seq<(string, N)>): (r: seq<(Metric, N)>)
    ensures |r| == |entries|
    ensures forall i :: 0 <= i < |r| ==> r[i] == (Parsed(entries[i].0), entries[i].1)
  {
    seq(|entries|, i requires 0 <= i < |entries| => (Parsed(entries[i].0), entries[i].1))
  }

  function Request(snapshot: Snapshot, t: Target): seq<Series> {
    CountersRequest(ParsedEntries(snapshot.counters), t) + HistogramsRequest(ParsedEntries(snapshot.histograms), t)
  }

  // ---- What a receiver reads in a series --------------------------------------------

  /** The metric's name and the job first, then the tags in order; one sample, of this number and time. */
  ghost predicate IsSeries(got: Series, name: string, tags: seq<Tag>, value: real, t: Target) {
    && |got.labels| == 2 + |tags|
    && got.labels[0] == Label("__name__", name) && got.labels[1] == Label("job", t.job)
    && (forall i :: 0 <= i < |tags| ==> got.labels[2 + i].name == tags[i].0 && got.labels[2 + i].value == tags[i].1)
    && |got.samples| == 1 && got.samples[0].bits == t.bits(value) && got.samples[0].timestamp == t.at
  }

  /** The same with a last label `le` of this text, under the name of the metric's buckets. */
  ghost predicate IsBucket(got: Series, m: Metric, le: string, value: real, t: Target) {
    && |got.labels| == 3 + |m.tags| && got.labels[2 + |m.tags|] == Label("le", le)
    && IsSeries(got.(labels := got.labels[..2 + |m.tags|]), m.name + "_bucket", m.tags, value, t)
  }

  /** The bucket of a bound, whose `le` reads back as the bound. */
  ghost predicate IsBucketOf(got: Series, m: Metric, bound: nat, value: real, t: Target) {
    exists le :: le != "" && AllDigits(le) && Number(le) == bound && IsBucket(got, m, le, value, t)
  }

  lemma SeriesReads(name: string, tags: seq<Tag>, value: real, t: Target)
    ensures IsSeries(ToSeries(name, tags, value, t), name, tags, value, t)
  {}

  lemma BucketReads(m: Metric, le: string, value: real, t: Target)
    ensures IsBucket(Bucket(m, le, value, t), m, le, value, t)
  {
    var labels := Bucket(m, le, value, t).labels;
    assert labels == [Label("__name__", m.name + "_bucket"), Label("job", t.job)] + AsLabels(m.tags + [("le", le)]);
    assert labels[2 + |m.tags|] == AsLabels(m.tags + [("le", le)])[|m.tags|];
    assert forall i :: 0 <= i < |m.tags| ==> labels[2 + i] == AsLabels(m.tags + [("le", le)])[i];
  }

  lemma BoundReads(m: Metric, bound: nat, value: real, t: Target)
    ensures IsBucketOf(Bucket(m, Decimal(bound), value, t), m, bound, value, t)
  {
    hide Bucket, IsBucket;
    DecimalRoundTrip(bound);
    BucketReads(m, Decimal(bound), value, t);
  }

  /** The 22 series of a summary: buckets by bound, the total, and the five numbers. */
  ghost predicate ShowsSummary(out: seq<Series>, m: Metric, s: Summary, t: Target) {
    && |out| == 22
    && (forall i :: 0 <= i < |BOUNDS| ==>
          IsBucketOf(out[i], m, BOUNDS[i], if i < |s.buckets| then s.buckets[i] as real else 0.0, t))
    && IsBucket(out[16], m, "+Inf", s.count as real, t)
    && IsSeries(out[17], m.name + "_count", m.tags, s.count as real, t)
    && IsSeries(out[18], m.name + "_sum", m.tags, s.sum, t)
    && IsSeries(out[19], m.name + "_avg", m.tags, s.avg, t)
    && IsSeries(out[20], m.name + "_min", m.tags, s.min, t)
    && IsSeries(out[21], m.name + "_max", m.tags, s.max, t)
  }

  lemma HistogramReads(m: Metric, s: Summary, t: Target)
    ensures ShowsSummary(HistogramSeries(m, s, t), m, s, t)
  {
    hide ToSeries, Bucket, Decimal, IsSeries, IsBucket, IsBucketOf;
    var out := HistogramSeries(m, s, t);
    HistogramSeriesTail(m, s, t);
    forall i | 0 <= i < |BOUNDS|
      ensures IsBucketOf(out[i], m, BOUNDS[i], if i < |s.buckets| then s.buckets[i] as real else 0.0, t)
    {
      BucketSeriesAt(m, s, t, |BOUNDS|, i);
      assert out[i] == BucketSeries(m, s, t, |BOUNDS|)[i];
      BoundReads(m, BOUNDS[i], CountAt(s, i), t);
    }
    BucketReads(m, "+Inf", s.count as real, t);
    SeriesReads(m.name + "_count", m.tags, s.count as real, t);
    SeriesReads(m.name + "_sum", m.tags, s.sum, t);
    SeriesReads(m.name + "_avg", m.tags, s.avg, t);
    SeriesReads(m.name + "_min", m.tags, s.min, t);
    SeriesReads(m.name + "_max", m.tags, s.max, t);
  }

  /** A request shows these metrics: the counters one by one, then the histograms by 22. */
  ghost predicate ShowsMetrics(got: seq<Series>, counters: seq<(Metric, real)>, histograms: seq<(Metric, Summary)>,
                               t: Target) {
    var n := |counters|;
    && |got| == n + 22 * |histograms|
    && (forall i :: 0 <= i < n ==> IsSeries(got[i], counters[i].0.name, counters[i].0.tags, counters[i].1, t))
    && (forall h :: 0 <= h < |histograms| ==>
          ShowsSummary(got[n + 22 * h..n + 22 * h + 22], histograms[h].0, histograms[h].1, t))
  }

  lemma RequestReads(counters: seq<(Metric, real)>, histograms: seq<(Metric, Summary)>, t: Target)
    ensures ShowsMetrics(CountersRequest(counters, t) + HistogramsRequest(histograms, t), counters, histograms, t)
  {
    hide ToSeries, IsSeries, ShowsSummary, HistogramSeries, CountersRequest, HistogramsRequest;
    var n := |counters|;
    var first, rest := CountersRequest(counters, t), HistogramsRequest(histograms, t);
    forall i | 0 <= i < n
      ensures IsSeries((first + rest)[i], counters[i].0.name, counters[i].0.tags, counters[i].1, t)
    {
      assert (first + rest)[i] == first[i];
      SeriesReads(counters[i].0.name, counters[i].0.tags, counters[i].1, t);
    }
    forall h | 0 <= h < |histograms|
      ensures ShowsSummary((first + rest)[n + 22 * h..n + 22 * h + 22], histograms[h].0, histograms[h].1, t)
    {
      HistogramsRequestAt(histograms, t, h);
      assert (first + rest)[n + 22 * h..n + 22 * h + 22] == rest[22 * h..22 * h + 22];
      HistogramReads(histograms[h].0, histograms[h].1, t);
    }
  }

  lemma HistogramSeriesTail(m: Metric, s: Summary, t: Target)
    ensures var out := HistogramSeries(m, s, t);
            && out[16] == Bucket(m, "+Inf", s.count as real, t)
            && out[17] == ToSeries(m.name + "_count", m.tags, s.count as real, t)
            && out[18] == ToSeries(m.name + "_sum", m.tags, s.sum, t)
            && out[19] == ToSeries(m.name + "_avg", m.tags, s.avg, t)
            && out[20] == ToSeries(m.name + "_min", m.tags, s.min, t)
            && out[21] == ToSeries(m.name + "_max", m.tags, s.max, t)
  {
    hide ToSeries, Bucket, Decimal;
    assert |BucketSeries(m, s, t, |BOUNDS|)| == 16;
  }

  // ---- The exporter -----------------------------------------------------------------

  method CollectCounters(counters: seq<(string, real)>, t: Target) returns (pending: seq<Series>)
    ensures pending == CountersRequest(ParsedEntries(counters), t)
  {
    hide ToSeries, ParsedKey;
    pending := [];
    for i := 0 to |counters|
      invariant pending == CountersRequest(ParsedEntries(counters[..i]), t)
    {
      var name, tags := ParseSnapshotKey(counters[i].0);
      pending := pending + [ToSeries(name, tags, counters[i].1, t)];
      assert ParsedEntries(counters[..i + 1]) == ParsedEntries(counters[..i]) + [(Metric(name, tags), counters[i].1)];
      assert ParsedEntries(counters[..i + 1])[..i] == ParsedEntries(counters[..i]);
    }
    assert counters[..|counters|] == counters;
  }

  method CollectHistogram(key: string, s: Summary, t: Target) returns (pending: seq<Series>)
    ensures pending == HistogramSeries(Parsed(key), s, t)
  {
    hide ToSeries, ParsedKey, Decimal;
    var name, tags := ParseSnapshotKey(key);
    ghost var m := Metric(name, tags);
    pending := [];
    for j := 0 to |BOUNDS|
      invariant pending == BucketSeries(m, s, t, j)
    {
      pending := pending + [ToSeries(name + "_bucket", tags + [("le", Decimal(BOUNDS[j]))], CountAt(s, j), t)];
    }
    pending := pending + [ToSeries(name + "_bucket", tags + [("le", "+Inf")], s.count as real, t),
                          ToSeries(name + "_count", tags, s.count as real, t),
                          ToSeries(name + "_sum", tags, s.sum, t),
                          ToSeries(name + "_avg", tags, s.avg, t),
                          ToSeries(name + "_min", tags, s.min, t),
                          ToSeries(name + "_max", tags, s.max, t)];
  }

  method CollectHistograms(histograms: seq<(string, Summary)>, t: Target) returns (pending: seq<Series>)
    ensures pending == HistogramsRequest(ParsedEntries(histograms), t)
  {
    hide HistogramSeries, ParsedKey;
    pending := [];
    for i := 0 to |histograms|
      invariant pending == HistogramsRequest(ParsedEntries(histograms[..i]), t)
    {
      var series := CollectHistogram(histograms[i].0, histograms[i].1, t);
      pending := pending + series;
      assert ParsedEntries(histograms[..i + 1])
          == ParsedEntries(histograms[..i]) + [(Parsed(histograms[i].0), histograms[i].1)];
      assert ParsedEntries(histograms[..i + 1])[..i] == ParsedEntries(histograms[..i]);
    }
    assert histograms[..|histograms|] == histograms;
  }

  ghost predicate AllEncodable(request: seq<Series>) {
    forall i :: 0 <= i < |request| ==> Encodable(request[i])
  }

  /** `snapshotToPromRemoteWrite` up to compression: the receiver decodes exactly the pending series. */
  method SnapshotToRemoteWrite(snapshot: Snapshot, t: Target) returns (bytes: seq<Utf8.Byte>)
    ensures bytes == RequestBytes(Request(snapshot, t))
    ensures AllEncodable(Request(snapshot, t)) ==> DecodeRequest(bytes) == Some(Request(snapshot, t))
    ensures ShowsMetrics(Request(snapshot, t), ParsedEntries(snapshot.counters), ParsedEntries(snapshot.histograms), t)
  {
    hide Encodable, DecodeRequest, RequestBytes, CountersRequest, HistogramsRequest, ShowsMetrics, ParsedKey;
    RequestReads(ParsedEntries(snapshot.counters), ParsedEntries(snapshot.histograms), t);
    var fromCounters := CollectCounters(snapshot.counters, t);
    var fromHistograms := CollectHistograms(snapshot.histograms, t);
    var pending := fromCounters + fromHistograms;
    if pending == [] {
      NothingToReport();
      bytes := [];
    } else {
      bytes := EncodeRequest(pending);
    }
    if AllEncodable(Request(snapshot, t)) {
      RequestRoundTrip(Request(snapshot, t));
    }
  }

  lemma NothingToReport()
    ensures RequestBytes([]) == []
  {}

  // ---- From the metrics callers name to what the receiver decodes -------------------

  ghost predicate Printable(m: Metric) {
    '{' !in m.name && AllWellFormed(m.tags)
  }

  /** Entries as the registry keeps them, each under its printed key. */
  function Printed<N>(c: Collation, entries: seq<(Metric, N)>): (r: seq<(string, N)>)
    ensures |r| == |entries|
    ensures forall i :: 0 <= i < |r| ==> r[i] == (KeyFor(c, entries[i].0.name, entries[i].0.tags), entries[i].1)
  {
    seq(|entries|, i requires 0 <= i < |entries| =>
      (KeyFor(c, entries[i].0.name, entries[i].0.tags), entries[i].1))
  }

  function WithSortedTags<N>(c: Collation, entries: seq<(Metric, N)>): (r: seq<(Metric, N)>)
    ensures |r| == |entries|
    ensures forall i :: 0 <= i < |r| ==>
              r[i] == (Metric(entries[i].0.name, Arranged(c, entries[i].0.tags)), entries[i].1)
  {
    seq(|entries|, i requires 0 <= i < |entries| =>
      (Metric(entries[i].0.name, Arranged(c, entries[i].0.tags)), entries[i].1))
  }

  lemma EntriesParseBack<N>(c: Collation, entries: seq<(Metric, N)>)
    requires forall i :: 0 <= i < |entries| ==> Printable(entries[i].0)
    ensures ParsedEntries(Printed(c, entries)) == WithSortedTags(c, entries)
  {
    hide ParsedKey, KeyFor, Arranged, AllWellFormed;
    forall i | 0 <= i < |entries|
      ensures Parsed(Printed(c, entries)[i].0) == Metric(entries[i].0.name, Arranged(c, entries[i].0.tags))
    {
      KeyRoundTripIff(c, entries[i].0.name, entries[i].0.tags);
    }
  }

  /**
   End to end: what the receiver decodes is, for every recorded metric, its name, the job and its
   own tags in key order, with the recorded numbers; nothing of the key syntax shows through.
   */
  lemma ExportRoundTrip(c: Collation, counters: seq<(Metric, real)>, histograms: seq<(Metric, Summary)>, t: Target)
    requires forall i :: 0 <= i < |counters| ==> Printable(counters[i].0)
    requires forall i :: 0 <= i < |histograms| ==> Printable(histograms[i].0)
    requires AllEncodable(Request(Snapshot(Printed(c, counters), Printed(c, histograms)), t))
    ensures DecodeRequest(RequestBytes(Request(Snapshot(Printed(c, counters), Printed(c, histograms)), t)))
         == Some(CountersRequest(WithSortedTags(c, counters), t) + HistogramsRequest(WithSortedTags(c, histograms), t))
    ensures var bytes := RequestBytes(Request(Snapshot(Printed(c, counters), Printed(c, histograms)), t));
            ShowsMetrics(DecodeRequest(bytes).value, WithSortedTags(c, counters), WithSortedTags(c, histograms), t)
  {
    hide Printable, Encodable, DecodeRequest, RequestBytes, CountersRequest, HistogramsRequest, ShowsMetrics;
    RequestReads(WithSortedTags(c, counters), WithSortedTags(c, histograms), t);
    var request := Request(Snapshot(Printed(c, counters), Printed(c, histograms)), t);
    EntriesParseBack(c, counters);
    EntriesParseBack(c, histograms);
    RequestRoundTrip(request);
  }

  // ---- From the observations to what the receiver decodes ---------------------------

  predicate IsMean(v: real, seen: seq<real>) {
    v * (|seen| as real) == Total(seen)
  }

  ghost predicate IsLeast(v: real, seen: seq<real>) {
    v in seen && forall u :: u in seen ==> v <= u
  }

  ghost predicate IsGreatest(v: real, seen: seq<real>) {
    v in seen && forall u :: u in seen ==> u <= v
  }

  /** The 22 series are about exactly these observations of `m`. */
  ghost predicate Reports(out: seq<Series>, m: Metric, seen: seq<real>, t: Target) {
    && |out| == 22
    && (forall i :: 0 <= i < |BOUNDS| ==> IsBucketOf(out[i], m, BOUNDS[i], AtMost(seen, BOUNDS[i]) as real, t))
    && IsBucket(out[16], m, "+Inf", |seen| as real, t)
    && IsSeries(out[17], m.name + "_count", m.tags, |seen| as real, t)
    && IsSeries(out[18], m.name + "_sum", m.tags, Total(seen), t)
    && (exists v :: IsMean(v, seen) && IsSeries(out[19], m.name + "_avg", m.tags, v, t))
    && (exists v :: IsLeast(v, seen) && IsSeries(out[20], m.name + "_min", m.tags, v, t))
    && (exists v :: IsGreatest(v, seen) && IsSeries(out[21], m.name + "_max", m.tags, v, t))
  }

  lemma SummaryReports(m: Metric, s: Summary, seen: seq<real>, t: Target)
    requires Summarises(s, seen)
    ensures Reports(HistogramSeries(m, s, t), m, seen, t)
  {
    assert IsMean(s.avg, seen) && IsLeast(s.min, seen) && IsGreatest(s.max, seen);
    HistogramReads(m, s, t);
    hide IsMean, IsLeast, IsGreatest, HistogramSeries, IsSeries, IsBucket, IsBucketOf, AtMost, Total;
  }

  /** What a receiver sees of a registry, listed by key. */
  ghost predicate Shows(got: seq<Series>, counters: map<string, real>, history: map<string, seq<real>>,
                        counterKeys: seq<string>, histogramKeys: seq<string>, t: Target)
    requires (forall k :: k in counterKeys ==> k in counters) && (forall k :: k in histogramKeys ==> k in history)
  {
    var n := |counterKeys|;
    && |got| == n + 22 * |histogramKeys|
    && (forall i :: 0 <= i < n ==>
          var m := Parsed(counterKeys[i]);
          IsSeries(got[i], m.name, m.tags, counters[counterKeys[i]], t))
    && (forall h :: 0 <= h < |histogramKeys| ==>
          Reports(got[n + 22 * h..n + 22 * h + 22], Parsed(histogramKeys[h]), history[histogramKeys[h]], t))
  }

  /** A snapshot with these numbers makes a request that shows them. */
  lemma RequestShows(snapshot: Snapshot, counters: map<string, real>, history: map<string, seq<real>>,
                     counterKeys: seq<string>, histogramKeys: seq<string>, t: Target)
    requires (forall k :: k in counterKeys ==> k in counters) && (forall k :: k in histogramKeys ==> k in history)
    requires |snapshot.counters| == |counterKeys| && |snapshot.histograms| == |histogramKeys|
    requires forall i :: 0 <= i < |counterKeys| ==> snapshot.counters[i] == (counterKeys[i], counters[counterKeys[i]])
    requires forall h :: 0 <= h < |histogramKeys| ==>
               snapshot.histograms[h].0 == histogramKeys[h]
               && Summarises(snapshot.histograms[h].1, history[histogramKeys[h]])
    ensures Shows(Request(snapshot, t), counters, history, counterKeys, histogramKeys, t)
  {
    hide ToSeries, IsSeries, Reports, Summarises, ParsedKey, HistogramSeries, CountersRequest, HistogramsRequest;
    var n := |counterKeys|;
    var got := Request(snapshot, t);
    var first, rest := CountersRequest(ParsedEntries(snapshot.counters), t),
                       HistogramsRequest(ParsedEntries(snapshot.histograms), t);
    assert got == first + rest;
    forall i | 0 <= i < n
      ensures var m := Parsed(counterKeys[i]);
              IsSeries(got[i], m.name, m.tags, counters[counterKeys[i]], t)
    {
      assert got[i] == first[i];
      SeriesReads(Parsed(counterKeys[i]).name, Parsed(counterKeys[i]).tags, counters[counterKeys[i]], t);
    }
    forall h | 0 <= h < |histogramKeys|
      ensures Reports(got[n + 22 * h..n + 22 * h + 22], Parsed(histogramKeys[h]), history[histogramKeys[h]], t)
    {
      HistogramsRequestAt(ParsedEntries(snapshot.histograms), t, h);
      assert got[n + 22 * h..n + 22 * h + 22] == rest[22 * h..22 * h + 22];
      SummaryReports(Parsed(histogramKeys[h]), snapshot.histograms[h].1, history[histogramKeys[h]], t);
    }
  }

  ghost predicate NoRepeats(keys: seq<string>) {
    forall i, j :: 0 <= i < j < |keys| ==> keys[i] != keys[j]
  }

  /**
   Snapshot and export together: what the receiver decodes is, for each `le`, the number of
   observations at most that bound, and the count, sum, mean, least and greatest of them all.
   The keys are listed in the registry's iteration order.
   */
  method ExportRegistry(registry: Registry, counterKeys: seq<string>, histogramKeys: seq<string>, t: Target)
    returns (bytes: seq<Utf8.Byte>)
    requires registry.Valid() && NoRepeats(counterKeys) && NoRepeats(histogramKeys)
    requires forall k :: k in counterKeys <==> k in registry.counters
    requires forall k :: k in histogramKeys <==> k in registry.histograms
    ensures exists request :: bytes == RequestBytes(request)
              && Shows(request, registry.counters, registry.History(), counterKeys, histogramKeys, t)
              && (AllEncodable(request) ==> DecodeRequest(bytes) == Some(request))
  {
    hide Request, Encodable, DecodeRequest, RequestBytes, Shows, Summarises;
    var counts, summaries := registry.Snapshot();
    var snapshot := Snapshot(
      seq(|counterKeys|, i requires 0 <= i < |counterKeys| => (counterKeys[i], counts[counterKeys[i]])),
      seq(|histogramKeys|, i requires 0 <= i < |histogramKeys| => (histogramKeys[i], summaries[histogramKeys[i]])));
    bytes := SnapshotToRemoteWrite(snapshot, t);
    assert bytes == RequestBytes(Request(snapshot, t));
    RequestShows(snapshot, registry.counters, registry.History(), counterKeys, histogramKeys, t);
  }
}

/** The primary-then-fallback runner: the order in which providers are tried and what is answered. */
module Failover {
  import opened Common
  import StableSort

  datatype ErrorCode =
    | PROVIDER_TIMEOUT | PROVIDER_HTTP_ERROR | PROVIDER_PARSE_ERROR | PROVIDER_QUOTA_EXCEEDED
    | PROVIDER_NO_API_KEY | PROVIDER_UNSUPPORTED_SYMBOL | NO_PROVIDER_AVAILABLE

  const ALL_CODES: set<ErrorCode> :=
    {PROVIDER_TIMEOUT, PROVIDER_HTTP_ERROR, PROVIDER_PARSE_ERROR, PROVIDER_QUOTA_EXCEEDED,
     PROVIDER_NO_API_KEY, PROVIDER_UNSUPPORTED_SYMBOL, NO_PROVIDER_AVAILABLE}

  datatype ProviderError = ProviderError(code: ErrorCode, provider: string, message: string)

  /** What `run` does: a value, an empty answer, a provider error, or any other exception. */
  datatype Outcome<T> = Value(value: T) | Empty | Provider(error: ProviderError) | Bug(what: string)

  datatype Attempt<T> = Attempt(name: string, pinned: bool, outcome: Outcome<T>)

  datatype Answer<T> = Answered(value: T, provider: string) | Failed(error: ProviderError) | Rethrown(what: string)

  function Rank(e: ProviderError): nat {
    match e.code
    case PROVIDER_QUOTA_EXCEEDED => 3
    case PROVIDER_HTTP_ERROR => 2
    case PROVIDER_TIMEOUT => 2
    case _ => 1
  }

  // ---- The try order ----------------------------------------------------------------

  /** Attempt `i` is tried before `j`: pinned first in caller order, then by score, ties in caller order. */
  predicate Before<T>(attempts: seq<Attempt<T>>, scores: seq<real>, i: nat, j: nat)
    requires i < |attempts| == |scores| && j < |attempts|
  {
    if attempts[i].pinned != attempts[j].pinned then attempts[i].pinned
    else if attempts[i].pinned || scores[i] == scores[j] then i < j
    else scores[i] > scores[j]
  }

  ghost predicate Ordered<T>(attempts: seq<Attempt<T>>, scores: seq<real>, order: seq<nat>)
    requires |attempts| == |scores| && StableSort.Indices(|attempts|, order)
  {
    forall a, b :: 0 <= a < b < |order| ==> Before(attempts, scores, order[a], order[b])
  }

  /** All attempts, each once, in the order of `Before`. */
  ghost predicate IsTryOrder<T>(attempts: seq<Attempt<T>>, scores: seq<real>, order: seq<nat>) {
    && |attempts| == |scores| && StableSort.Indices(|attempts|, order)
    && (forall i :: 0 <= i < |attempts| ==> i in order)
    && Ordered(attempts, scores, order)
  }

  lemma NoRepeats<T>(attempts: seq<Attempt<T>>, scores: seq<real>, order: seq<nat>)
    requires IsTryOrder(attempts, scores, order)
    ensures forall a, b :: 0 <= a < b < |order| ==> order[a] != order[b]
  {
    forall a, b | 0 <= a < b < |order| ensures order[a] != order[b] {
      assert Before(attempts, scores, order[a], order[b]);
    }
  }

  lemma {:induction false} AgreeUpTo<T>(attempts: seq<Attempt<T>>, scores: seq<real>, p: seq<nat>, q: seq<nat>, n: nat)
    requires IsTryOrder(attempts, scores, p) && IsTryOrder(attempts, scores, q) && n <= |p|
    ensures n <= |q| && p[..n] == q[..n]
  {
    if n > 0 {
      var m := n - 1;
      AgreeUpTo(attempts, scores, p, q, m);
      NoRepeats(attempts, scores, p);
      NoRepeats(attempts, scores, q);
      forall k | 0 <= k < m ensures p[k] == q[k] {
        assert p[..m][k] == q[..m][k];
      }
      assert p[m] in q;
      var b :| 0 <= b < |q| && q[b] == p[m];
      assert b >= m;
      assert q[m] in p;
      var a :| 0 <= a < |p| && p[a] == q[m];
      assert a >= m;
      assert p[..n] == p[..m] + [p[m]] && q[..n] == q[..m] + [q[m]];
    }
  }

  /** What the order says: pinned attempts first as the caller gave them, then by score, ties as given. */
  lemma OrderReads<T>(attempts: seq<Attempt<T>>, scores: seq<real>, order: seq<nat>, a: nat, b: nat)
    requires IsTryOrder(attempts, scores, order) && a < b < |order|
    ensures var i, j := order[a], order[b];
            && i < |attempts| && j < |attempts|
            && (attempts[j].pinned ==> attempts[i].pinned && i < j)
            && (!attempts[i].pinned ==> scores[i] >= scores[j] && (scores[i] == scores[j] ==> i < j))
  {
    assert Before(attempts, scores, order[a], order[b]);
  }

  /** There is only one such order. */
  lemma TryOrderIsUnique<T>(attempts: seq<Attempt<T>>, scores: seq<real>, p: seq<nat>, q: seq<nat>)
    requires IsTryOrder(attempts, scores, p) && IsTryOrder(attempts, scores, q)
    ensures p == q
  {
    AgreeUpTo(attempts, scores, p, q, |p|);
    AgreeUpTo(attempts, scores, q, p, |q|);
    assert p[..|p|] == p && q[..|q|] == q;
  }

  /** The first `n` attempts by kind, each kind in caller order. */
  ghost predicate Parted<T>(attempts: seq<Attempt<T>>, n: nat, pinned: seq<nat>, dynamic: seq<nat>)
    requires n <= |attempts|
  {
    && (forall a :: 0 <= a < |pinned| ==> pinned[a] < n && attempts[pinned[a]].pinned)
    && (forall a :: 0 <= a < |dynamic| ==> dynamic[a] < n && !attempts[dynamic[a]].pinned)
    && (forall a, b :: 0 <= a < b < |pinned| ==> pinned[a] < pinned[b])
    && (forall a, b :: 0 <= a < b < |dynamic| ==> dynamic[a] < dynamic[b])
    && (forall j :: 0 <= j < n ==> j in pinned || j in dynamic)
  }

  lemma PartsMakeTryOrder<T>(attempts: seq<Attempt<T>>, scores: seq<real>, pinned: seq<nat>, dynamic: seq<nat>,
                             keys: seq<real>, sorted: seq<nat>, order: seq<nat>)
    requires |attempts| == |scores| && Parted(attempts, |attempts|, pinned, dynamic)
    requires |keys| == |dynamic| && forall k :: 0 <= k < |dynamic| ==> keys[k] == scores[dynamic[k]]
    requires StableSort.IsStableOrder(keys, sorted)
    requires Joined(pinned, dynamic, sorted, order)
    ensures IsTryOrder(attempts, scores, order)
  {
    PartsCover(attempts, pinned, dynamic, sorted, order);
    forall a, b | 0 <= a < b < |order| ensures Before(attempts, scores, order[a], order[b]) {
      PartAt(pinned, dynamic, sorted, order, a);
      PartAt(pinned, dynamic, sorted, order, b);
      if a >= |pinned| {
        assert StableSort.Precedes(keys, sorted[a - |pinned|], sorted[b - |pinned|]);
      }
    }
  }

  /** `order` is the pinned part followed by the dynamic part as `sorted` arranges it. */
  ghost predicate Joined(pinned: seq<nat>, dynamic: seq<nat>, sorted: seq<nat>, order: seq<nat>) {
    && |order| == |pinned| + |sorted|
    && order[..|pinned|] == pinned
    && (forall k :: 0 <= k < |sorted| ==> sorted[k] < |dynamic| && order[|pinned| + k] == dynamic[sorted[k]])
  }

  lemma PartAt(pinned: seq<nat>, dynamic: seq<nat>, sorted: seq<nat>, order: seq<nat>, a: nat)
    requires Joined(pinned, dynamic, sorted, order) && a < |order|
    ensures a < |pinned| ==> order[a] == pinned[a]
    ensures a >= |pinned| ==> sorted[a - |pinned|] < |dynamic| && order[a] == dynamic[sorted[a - |pinned|]]
  {
    if a < |pinned| {
      assert order[..|pinned|][a] == pinned[a];
    } else {
      assert order[|pinned| + (a - |pinned|)] == dynamic[sorted[a - |pinned|]];
    }
  }

  lemma PartsCover<T>(attempts: seq<Attempt<T>>, pinned: seq<nat>, dynamic: seq<nat>, sorted: seq<nat>, order: seq<nat>)
    requires Parted(attempts, |attempts|, pinned, dynamic) && Joined(pinned, dynamic, sorted, order)
    requires forall k :: 0 <= k < |dynamic| ==> k in sorted
    ensures StableSort.Indices(|attempts|, order) && forall j :: 0 <= j < |attempts| ==> j in order
  {
    forall a | 0 <= a < |order| ensures order[a] < |attempts| {
      PartAt(pinned, dynamic, sorted, order, a);
    }
    forall j: nat | j < |attempts| ensures j in order {
      if j in pinned {
        assert j in order[..|pinned|];
      } else {
        var k :| 0 <= k < |dynamic| && dynamic[k] == j;
        assert k in sorted;
        var b :| 0 <= b < |sorted| && sorted[b] == k;
        assert order[|pinned| + b] == j;
      }
    }
  }

  method TryOrder<T>(attempts: seq<Attempt<T>>, scores: seq<real>) returns (order: seq<nat>)
    requires |attempts| == |scores|
    ensures IsTryOrder(attempts, scores, order)
  {
    var pinned: seq<nat>, dynamic: seq<nat> := [], [];
    for i := 0 to |attempts|
      invariant Parted(attempts, i, pinned, dynamic)
    {
      if attempts[i].pinned {
        pinned := pinned + [i];
      } else {
        dynamic := dynamic + [i];
      }
    }
    var keys := seq(|dynamic|, k requires 0 <= k < |dynamic| => scores[dynamic[k]]);
    var sorted := StableSort.Sort(keys);
    order := pinned + seq(|sorted|, k requires 0 <= k < |sorted| => dynamic[sorted[k]]);
    PartsMakeTryOrder(attempts, scores, pinned, dynamic, keys, sorted, order);
  }

  // ---- The answer -------------------------------------------------------------------

  predicate Continues<T>(o: Outcome<T>) {
    o.Empty? || o.Provider?
  }

  /** The health samples of attempts that did not answer: a failure each, none for an empty answer. */
  function Dings<T>(attempts: seq<Attempt<T>>, order: seq<nat>): seq<(string, bool)>
    requires StableSort.Indices(|attempts|, order)
  {
    if order == [] then []
    else
      var last := attempts[order[|order| - 1]];
      Dings(attempts, order[..|order| - 1]) + if last.outcome.Empty? then [] else [(last.name, false)]
  }

  lemma DingsNext<T>(attempts: seq<Attempt<T>>, order: seq<nat>, k: nat)
    requires StableSort.Indices(|attempts|, order) && k < |order|
    ensures var a := attempts[order[k]];
            Dings(attempts, order[..k + 1])
            == Dings(attempts, order[..k]) + if a.outcome.Empty? then [] else [(a.name, false)]
  {
    assert order[..k + 1][..k] == order[..k];
  }

  /** A failure is recorded for a provider exactly when a tried attempt of it was not empty, once for each. */
  lemma {:induction false} DingsAre<T>(attempts: seq<Attempt<T>>, order: seq<nat>, name: string, ok: bool)
    requires StableSort.Indices(|attempts|, order)
    ensures (name, ok) in Dings(attempts, order)
            <==> !ok && Named(attempts, order, name)
    ensures |Dings(attempts, order)| == NotEmpty(attempts, order)
  {
    hide Dings, NotEmpty;
    if order == [] {
      DingsNothing(attempts);
    } else {
      var n := |order| - 1;
      DingsAre(attempts, order[..n], name, ok);
      assert order[..n + 1] == order;
      DingsNext(attempts, order, n);
      assert order[..n] + [order[n]] == order;
      NamedNext(attempts, order[..n], order[n], name);
      NotEmptyNext(attempts, order);
    }
  }

  predicate IsNotEmpty<T>(attempts: seq<Attempt<T>>, i: nat, name: string) {
    i < |attempts| && attempts[i].name == name && !attempts[i].outcome.Empty?
  }

  /** A tried attempt of this provider was not empty. */
  ghost predicate Named<T>(attempts: seq<Attempt<T>>, order: seq<nat>, name: string) {
    exists i :: i in order && IsNotEmpty(attempts, i, name)
  }

  lemma NamedNext<T>(attempts: seq<Attempt<T>>, order: seq<nat>, last: nat, name: string)
    ensures Named(attempts, order + [last], name)
            <==> Named(attempts, order, name) || IsNotEmpty(attempts, last, name)
  {
    hide IsNotEmpty;
    assert last in order + [last];
    assert forall i :: i in order ==> i in order + [last];
  }

  lemma NotEmptyNext<T>(attempts: seq<Attempt<T>>, order: seq<nat>)
    requires StableSort.Indices(|attempts|, order) && order != []
    ensures var n := |order| - 1;
            NotEmpty(attempts, order)
            == NotEmpty(attempts, order[..n]) + if attempts[order[n]].outcome.Empty? then 0 else 1
  {}

  lemma DingsNothing<T>(attempts: seq<Attempt<T>>)
    ensures Dings(attempts, []) == [] && NotEmpty(attempts, []) == 0
  {}

  function NotEmpty<T>(attempts: seq<Attempt<T>>, order: seq<nat>): nat
    requires StableSort.Indices(|attempts|, order)
  {
    if order == [] then 0
    else NotEmpty(attempts, order[..|order| - 1]) + if attempts[order[|order| - 1]].outcome.Empty? then 0 else 1
  }

  ghost predicate AllContinue<T>(attempts: seq<Attempt<T>>, order: seq<nat>, k: nat)
    requires k <= |order| && StableSort.Indices(|attempts|, order)
  {
    forall a :: 0 <= a < k ==> Continues(attempts[order[a]].outcome)
  }

  /** The rank of a provider error, which is at least 1, and 0 for anything else. */
  function RankOf<T>(o: Outcome<T>): nat {
    if o.Provider? then Rank(o.error) else 0
  }

  /** The error of the earliest tried attempt among those with the highest rank. */
  ghost predicate EarliestBest<T>(attempts: seq<Attempt<T>>, order: seq<nat>, k: nat, e: ProviderError)
    requires k <= |order| && StableSort.Indices(|attempts|, order)
  {
    exists b :: 0 <= b < k && attempts[order[b]].outcome == Provider(e)
      && (forall a :: 0 <= a < k ==> RankOf(attempts[order[a]].outcome) <= Rank(e))
      && (forall a :: 0 <= a < b ==> RankOf(attempts[order[a]].outcome) < Rank(e))
  }

  /** What the runner answers and which health samples it writes, read off the try order. */
  ghost predicate Explains<T>(attempts: seq<Attempt<T>>, order: seq<nat>, r: Answer<T>, writes: seq<(string, bool)>)
    requires StableSort.Indices(|attempts|, order)
  {
    match r
    case Answered(value, provider) =>
      exists k :: 0 <= k < |order| && AllContinue(attempts, order, k)
        && attempts[order[k]].outcome == Value(value) && attempts[order[k]].name == provider
        && writes == Dings(attempts, order[..k]) + [(provider, true)]
    case Rethrown(what) =>
      exists k :: 0 <= k < |order| && AllContinue(attempts, order, k)
        && attempts[order[k]].outcome == Bug(what)
        && writes == Dings(attempts, order[..k]) + [(attempts[order[k]].name, false)]
    case Failed(error) =>
      && AllContinue(attempts, order, |order|) && writes == Dings(attempts, order)
      && (|| EarliestBest(attempts, order, |order|, error)
          || (error.code == NO_PROVIDER_AVAILABLE && error.provider == "none"
              && forall a :: 0 <= a < |order| ==> attempts[order[a]].outcome.Empty?))
  }

  lemma BestKept<T>(attempts: seq<Attempt<T>>, order: seq<nat>, k: nat, e: ProviderError)
    requires k < |order| && StableSort.Indices(|attempts|, order) && EarliestBest(attempts, order, k, e)
    requires RankOf(attempts[order[k]].outcome) <= Rank(e)
    ensures EarliestBest(attempts, order, k + 1, e)
  {
    hide Rank, RankOf;
  }

  lemma BestReplaced<T>(attempts: seq<Attempt<T>>, order: seq<nat>, k: nat, best: Option<ProviderError>,
                        e: ProviderError)
    requires k < |order| && StableSort.Indices(|attempts|, order) && attempts[order[k]].outcome == Provider(e)
    requires best.Some? ==> EarliestBest(attempts, order, k, best.value) && Rank(best.value) < Rank(e)
    requires best.None? ==> forall a :: 0 <= a < k ==> attempts[order[a]].outcome.Empty?
    ensures EarliestBest(attempts, order, k + 1, e)
  {
    assert forall a :: 0 <= a < k && best.None? ==> RankOf(attempts[order[a]].outcome) < Rank(e);
  }

  /** When every attempt failed, the first error is thrown exactly when no later one outranks it. */
  lemma FirstErrorThrownIff<T>(attempts: seq<Attempt<T>>, order: seq<nat>, e: ProviderError, first: nat)
    requires StableSort.Indices(|attempts|, order) && EarliestBest(attempts, order, |order|, e)
    requires first < |order| && attempts[order[first]].outcome.Provider?
    requires forall a :: 0 <= a < first ==> !attempts[order[a]].outcome.Provider?
    ensures e == attempts[order[first]].outcome.error
            <==> forall a :: first < a < |order| ==>
                   RankOf(attempts[order[a]].outcome) <= RankOf(attempts[order[first]].outcome)
  {
    var b :| 0 <= b < |order| && attempts[order[b]].outcome == Provider(e)
             && (forall a :: 0 <= a < |order| ==> RankOf(attempts[order[a]].outcome) <= Rank(e))
             && (forall a :: 0 <= a < b ==> RankOf(attempts[order[a]].outcome) < Rank(e));
    assert first <= b;
    assert RankOf(attempts[order[first]].outcome) <= Rank(e) == RankOf(attempts[order[b]].outcome);
  }

  predicate HasCode<T>(o: Outcome<T>, codes: set<ErrorCode>) {
    o.Provider? && o.error.code in codes
  }

  /** `e` is the error of the first tried attempt with one of these codes. */
  ghost predicate IsFirstWith<T>(attempts: seq<Attempt<T>>, order: seq<nat>, codes: set<ErrorCode>, e: ProviderError)
    requires StableSort.Indices(|attempts|, order)
  {
    exists b :: 0 <= b < |order| && attempts[order[b]].outcome == Provider(e) && e.code in codes
      && forall a :: 0 <= a < b ==> !HasCode(attempts[order[a]].outcome, codes)
  }

  ghost predicate AnyWith<T>(attempts: seq<Attempt<T>>, order: seq<nat>, codes: set<ErrorCode>)
    requires StableSort.Indices(|attempts|, order)
  {
    exists a :: 0 <= a < |order| && HasCode(attempts[order[a]].outcome, codes)
  }

  /** When every attempt failed: the first quota error, else the first HTTP or timeout error, else the first error. */
  lemma ThrownByCode<T>(attempts: seq<Attempt<T>>, order: seq<nat>, e: ProviderError)
    requires StableSort.Indices(|attempts|, order) && EarliestBest(attempts, order, |order|, e)
    ensures
      if AnyWith(attempts, order, {PROVIDER_QUOTA_EXCEEDED}) then
        IsFirstWith(attempts, order, {PROVIDER_QUOTA_EXCEEDED}, e)
      else if AnyWith(attempts, order, {PROVIDER_HTTP_ERROR, PROVIDER_TIMEOUT}) then
        IsFirstWith(attempts, order, {PROVIDER_HTTP_ERROR, PROVIDER_TIMEOUT}, e)
      else IsFirstWith(attempts, order, ALL_CODES, e)
  {
    var b :| 0 <= b < |order| && attempts[order[b]].outcome == Provider(e)
             && (forall a :: 0 <= a < |order| ==> RankOf(attempts[order[a]].outcome) <= Rank(e))
             && (forall a :: 0 <= a < b ==> RankOf(attempts[order[a]].outcome) < Rank(e));
    forall a | 0 <= a < |order|
      ensures HasCode(attempts[order[a]].outcome, {PROVIDER_QUOTA_EXCEEDED})
              <==> RankOf(attempts[order[a]].outcome) == 3
      ensures HasCode(attempts[order[a]].outcome, {PROVIDER_HTTP_ERROR, PROVIDER_TIMEOUT})
              <==> RankOf(attempts[order[a]].outcome) == 2
    {}
    assert RankOf(attempts[order[b]].outcome) == Rank(e);
  }

  function TimeoutThenQuota(name: string): seq<Attempt<int>> {
    [Attempt(name, true, Provider(ProviderError(PROVIDER_TIMEOUT, name, "timed out"))),
     Attempt(name, true, Provider(ProviderError(PROVIDER_QUOTA_EXCEEDED, name, "no quota left")))]
  }

  /** A timeout followed by a quota error: the quota error is thrown, not the first. */
  lemma SecondErrorThrown(name: string, r: Answer<int>, writes: seq<(string, bool)>)
    requires Explains(TimeoutThenQuota(name), [0, 1], r, writes)
    ensures r == Failed(ProviderError(PROVIDER_QUOTA_EXCEEDED, name, "no quota left"))
  {
    var attempts := TimeoutThenQuota(name);
    assert RankOf(attempts[[0, 1][1]].outcome) == 3;
    assert r.Failed? && EarliestBest(attempts, [0, 1], 2, r.error);
  }

  /** The loop is over at attempt `k`, which answered or threw something else than a provider error. */
  lemma EndsAt<T>(attempts: seq<Attempt<T>>, order: seq<nat>, k: nat)
    requires StableSort.Indices(|attempts|, order) && k < |order| && AllContinue(attempts, order, k)
    ensures var a, dings := attempts[order[k]], Dings(attempts, order[..k]);
            match a.outcome
            case Value(v) => Explains(attempts, order, Answered(v, a.name), dings + [(a.name, true)])
            case Bug(what) => Explains(attempts, order, Rethrown(what), dings + [(a.name, false)])
            case _ => AllContinue(attempts, order, k + 1)
  {
    hide Dings;
  }

  /** Every attempt failed or had nothing. */
  lemma EndsWithout<T>(attempts: seq<Attempt<T>>, order: seq<nat>, best: Option<ProviderError>, other: ProviderError)
    requires StableSort.Indices(|attempts|, order) && AllContinue(attempts, order, |order|)
    requires best.Some? ==> EarliestBest(attempts, order, |order|, best.value)
    requires best.None? ==> forall a :: 0 <= a < |order| ==> attempts[order[a]].outcome.Empty?
    requires other.code == NO_PROVIDER_AVAILABLE && other.provider == "none"
    ensures Explains(attempts, order, Failed(best.GetOr(other)), Dings(attempts, order))
  {
    hide Dings, EarliestBest;
  }

  /** Tries the providers; `writes` are the health samples recorded, in order. */
  method RunWithFailover<T>(attempts: seq<Attempt<T>>, scores: seq<real>)
    returns (r: Answer<T>, writes: seq<(string, bool)>, order: seq<nat>)
    requires |attempts| == |scores|
    ensures IsTryOrder(attempts, scores, order) && Explains(attempts, order, r, writes)
  {
    order, writes := [], [];
    if attempts == [] {
      r := Failed(ProviderError(NO_PROVIDER_AVAILABLE, "none", "no providers configured for this resource"));
      return;
    }
    order := TryOrder(attempts, scores);
    hide Ordered, EarliestBest, Rank, Dings, Explains, AllContinue;
    NothingTried(attempts, order);
    var best: Option<ProviderError> := None;
    for k := 0 to |order|
      invariant AllContinue(attempts, order, k) && writes == Dings(attempts, order[..k])
      invariant best.Some? ==> EarliestBest(attempts, order, k, best.value)
      invariant best.None? ==> forall a :: 0 <= a < k ==> attempts[order[a]].outcome.Empty?
    {
      var a := attempts[order[k]];
      DingsNext(attempts, order, k);
      EndsAt(attempts, order, k);
      match a.outcome
      case Value(value) =>
        writes := writes + [(a.name, true)];
        return Answered(value, a.name), writes, order;
      case Bug(what) =>
        writes := writes + [(a.name, false)];
        return Rethrown(what), writes, order;
      case Empty =>
        if best.Some? {
          BestKept(attempts, order, k, best.value);
        }
      case Provider(error) =>
        writes := writes + [(a.name, false)];
        if best.None? || Rank(error) > Rank(best.value) {
          BestReplaced(attempts, order, k, best, error);
          best := Some(error);
        } else {
          BestKept(attempts, order, k, best.value);
        }
    }
    assert order[..|order|] == order;
    ghost var other := ProviderError(NO_PROVIDER_AVAILABLE, "none", "all providers failed");
    EndsWithout(attempts, order, best, other);
    r := Failed(if best.Some? then best.value
                else ProviderError(NO_PROVIDER_AVAILABLE, "none", "all providers failed"));
  }

  lemma NothingTried<T>(attempts: seq<Attempt<T>>, order: seq<nat>)
    requires StableSort.Indices(|attempts|, order)
    ensures AllContinue(attempts, order, 0) && Dings(attempts, order[..0]) == []
  {}
}

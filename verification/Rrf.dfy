/** Reciprocal-rank fusion of ranked lists, and the decayed, sorted and cut tail of the query. */
module Rrf {
  import opened Common
  import StableSort

  const RRF_K: nat := 60

  /** A result row; `payload` stands for the columns the fusion only carries along. */
  datatype Row = Row(id: string, similarity: real, payload: nat)

  /** One occurrence of a row in a ranking; ranks start at 1. */
  datatype Hit = Hit(row: Row, rank: nat)

  datatype Fused = Fused(row: Row, score: real, bestSimilarity: real)

  function HitsOf(list: seq<Row>): (hits: seq<Hit>)
    ensures |hits| == |list|
    ensures forall i :: 0 <= i < |list| ==> hits[i] == Hit(list[i], i + 1)
  {
    seq(|list|, i requires 0 <= i < |list| => Hit(list[i], i + 1))
  }

  /** All occurrences, list by list. */
  function Hits(rankings: seq<seq<Row>>): seq<Hit> {
    if rankings == [] then []
    else Hits(rankings[..|rankings| - 1]) + HitsOf(rankings[|rankings| - 1])
  }

  // ---- What fusion means ------------------------------------------------------------

  function Contribution(rank: nat): real {
    1.0 / (RRF_K + rank) as real
  }

  /** A place counts one over 60 plus the rank, so a better rank always counts for more. */
  lemma ContributionIs(rank: nat, worse: nat)
    ensures Contribution(rank) * (60 + rank) as real == 1.0
    ensures rank < worse ==> Contribution(rank) > Contribution(worse) > 0.0
  {
    var a, b := (60 + rank) as real, (60 + worse) as real;
    var x, y := Contribution(rank), Contribution(worse);
    assert x * a == 1.0 && y * b == 1.0;
    if rank < worse {
      PositiveFactor(x, a);
      PositiveFactor(y, b);
      if x <= y {
        SmallerProduct(x, y, a, b);
        assert false;
      }
    }
  }

  lemma PositiveFactor(x: real, a: real)
    requires a > 0.0 && x * a == 1.0
    ensures x > 0.0
  {}

  lemma SmallerProduct(x: real, y: real, a: real, b: real)
    requires 0.0 < x <= y && 0.0 < a < b
    ensures x * a < y * b
  {
    assert (y - x) * b >= 0.0;
    assert x * (b - a) > 0.0;
  }

  /** The sum of 1/(60 + rank) over the occurrences of `id`. */
  function Score(hits: seq<Hit>, id: string): real {
    if hits == [] then 0.0
    else
      var last := hits[|hits| - 1];
      Score(hits[..|hits| - 1], id) + if last.row.id == id then Contribution(last.rank) else 0.0
  }

  ghost predicate Occurs(hits: seq<Hit>, id: string) {
    exists k :: 0 <= k < |hits| && hits[k].row.id == id
  }

  /** `row` is the earliest occurrence of its id with the highest similarity. */
  ghost predicate IsBest(hits: seq<Hit>, row: Row) {
    exists k :: 0 <= k < |hits| && hits[k].row == row
      && (forall m :: 0 <= m < |hits| && hits[m].row.id == row.id ==> hits[m].row.similarity <= row.similarity)
      && (forall m :: 0 <= m < k && hits[m].row.id == row.id ==> hits[m].row.similarity < row.similarity)
  }

  /** `id` occurs in `hits` before `other` does. */
  ghost predicate SeenBefore(hits: seq<Hit>, id: string, other: string) {
    exists k :: 0 <= k < |hits| && hits[k].row.id == id && forall m :: 0 <= m <= k ==> hits[m].row.id != other
  }

  ghost predicate IsFusion(hits: seq<Hit>, fused: map<string, Fused>, order: seq<string>) {
    && (forall id :: id in fused <==> Occurs(hits, id))
    && (forall id :: id in order <==> id in fused)
    && (forall a, b :: 0 <= a < b < |order| ==> order[a] != order[b] && SeenBefore(hits, order[a], order[b]))
    && (forall id :: id in fused ==>
          var f := fused[id];
          f.row.id == id && f.bestSimilarity == f.row.similarity && f.score == Score(hits, id) && IsBest(hits, f.row))
  }

  function Adopt(f: Fused, hit: Hit): Fused {
    var better := hit.row.similarity > f.bestSimilarity;
    Fused(if better then hit.row else f.row, f.score + Contribution(hit.rank),
          if better then hit.row.similarity else f.bestSimilarity)
  }

  lemma ScoreExtends(hits: seq<Hit>, hit: Hit, id: string)
    ensures Score(hits + [hit], id) == Score(hits, id) + if hit.row.id == id then Contribution(hit.rank) else 0.0
  {
    assert (hits + [hit])[..|hits|] == hits;
  }

  lemma {:induction false} ScoreOfAbsent(hits: seq<Hit>, id: string)
    requires !Occurs(hits, id)
    ensures Score(hits, id) == 0.0
  {
    if hits != [] {
      assert hits[|hits| - 1].row.id != id;
      assert !Occurs(hits[..|hits| - 1], id);
      ScoreOfAbsent(hits[..|hits| - 1], id);
    }
  }

  lemma BestExtends(hits: seq<Hit>, hit: Hit, row: Row)
    requires IsBest(hits, row)
    requires hit.row.id == row.id ==> hit.row.similarity <= row.similarity
    ensures IsBest(hits + [hit], row)
  {
    var k :| 0 <= k < |hits| && hits[k].row == row
             && (forall m :: 0 <= m < |hits| && hits[m].row.id == row.id ==> hits[m].row.similarity <= row.similarity)
             && (forall m :: 0 <= m < k && hits[m].row.id == row.id ==> hits[m].row.similarity < row.similarity);
    assert (hits + [hit])[k].row == row;
  }

  lemma BestReplaced(hits: seq<Hit>, hit: Hit)
    requires forall m :: 0 <= m < |hits| && hits[m].row.id == hit.row.id ==> hits[m].row.similarity < hit.row.similarity
    ensures IsBest(hits + [hit], hit.row)
  {
    assert (hits + [hit])[|hits|].row == hit.row;
  }

  lemma SeenExtends(hits: seq<Hit>, hit: Hit, id: string, other: string)
    ensures SeenBefore(hits, id, other) ==> SeenBefore(hits + [hit], id, other)
    ensures Occurs(hits, id) && !Occurs(hits, other) ==> SeenBefore(hits + [hit], id, other)
  {
    if SeenBefore(hits, id, other) {
      var k :| 0 <= k < |hits| && hits[k].row.id == id && forall m :: 0 <= m <= k ==> hits[m].row.id != other;
      assert (hits + [hit])[k].row.id == id;
      assert forall m :: 0 <= m <= k ==> (hits + [hit])[m] == hits[m];
    }
  }

  lemma OccursExtends(hits: seq<Hit>, hit: Hit, id: string)
    ensures Occurs(hits + [hit], id) <==> Occurs(hits, id) || hit.row.id == id
  {
    var all := hits + [hit];
    if Occurs(hits, id) {
      var k :| 0 <= k < |hits| && hits[k].row.id == id;
      assert all[k].row.id == id;
    }
    if hit.row.id == id {
      assert all[|hits|].row.id == id;
    }
    if Occurs(all, id) {
      var k :| 0 <= k < |all| && all[k].row.id == id;
      assert k < |hits| ==> hits[k].row.id == id;
    }
  }

  /** The entry of an id after one more occurrence of it. */
  lemma EntryExtends(hits: seq<Hit>, hit: Hit, f: Fused)
    requires f.row.id == hit.row.id && f.bestSimilarity == f.row.similarity && IsBest(hits, f.row)
    requires f.score == Score(hits, f.row.id)
    ensures var g := Adopt(f, hit);
            g.row.id == f.row.id && g.bestSimilarity == g.row.similarity
            && g.score == Score(hits + [hit], g.row.id) && IsBest(hits + [hit], g.row)
  {
    ScoreExtends(hits, hit, f.row.id);
    if hit.row.similarity > f.bestSimilarity {
      BestReplaced(hits, hit);
    } else {
      BestExtends(hits, hit, f.row);
    }
  }

  lemma FusionExtends(hits: seq<Hit>, hit: Hit, fused: map<string, Fused>, order: seq<string>)
    requires IsFusion(hits, fused, order)
    ensures var id := hit.row.id;
            if id in fused then IsFusion(hits + [hit], fused[id := Adopt(fused[id], hit)], order)
            else IsFusion(hits + [hit], fused[id := Fused(hit.row, Contribution(hit.rank), hit.row.similarity)],
                          order + [id])
  {
    hide Score, Contribution, IsBest, SeenBefore, Occurs;
    var id := hit.row.id;
    var fused' := if id in fused then fused[id := Adopt(fused[id], hit)]
                  else fused[id := Fused(hit.row, Contribution(hit.rank), hit.row.similarity)];
    var order' := if id in fused then order else order + [id];
    forall i ensures Occurs(hits + [hit], i) <==> i in fused' {
      OccursExtends(hits, hit, i);
    }
    forall i | i in fused'
      ensures var f := fused'[i];
              f.row.id == i && f.bestSimilarity == f.row.similarity && f.score == Score(hits + [hit], i)
              && IsBest(hits + [hit], f.row)
    {
      ScoreExtends(hits, hit, i);
      if i != id {
        BestExtends(hits, hit, fused[i].row);
      } else if id in fused {
        EntryExtends(hits, hit, fused[id]);
      } else {
        ScoreOfAbsent(hits, id);
        NewIsBest(hits, hit);
      }
    }
    forall a, b | 0 <= a < b < |order'|
      ensures order'[a] != order'[b] && SeenBefore(hits + [hit], order'[a], order'[b])
    {
      assert order'[a] == order[a] && order[a] in order;
      SeenExtends(hits, hit, order'[a], order'[b]);
    }
  }

  lemma NewIsBest(hits: seq<Hit>, hit: Hit)
    requires !Occurs(hits, hit.row.id)
    ensures IsBest(hits + [hit], hit.row)
  {
    BestReplaced(hits, hit);
  }

  // ---- The code ---------------------------------------------------------------------

  /** The fused entries and the order in which their ids were first seen. */
  method Fuse(rankings: seq<seq<Row>>) returns (fused: map<string, Fused>, order: seq<string>)
    ensures IsFusion(Hits(rankings), fused, order)
  {
    hide Score, Contribution, IsBest, SeenBefore, IsFusion;
    fused, order := map[], [];
    EmptyFusion();
    for i := 0 to |rankings|
      invariant IsFusion(Hits(rankings[..i]), fused, order)
    {
      ghost var before := Hits(rankings[..i]);
      ghost var listHits := HitsOf(rankings[i]);
      assert before + listHits[..0] == before;
      for j := 0 to |rankings[i]|
        invariant IsFusion(before + listHits[..j], fused, order)
      {
        var row, rank := rankings[i][j], j + 1;
        FusionExtends(before + listHits[..j], Hit(row, rank), fused, order);
        assert before + listHits[..j + 1] == before + listHits[..j] + [Hit(row, rank)];
        var contribution := Contribution(rank);
        if row.id in fused {
          var existing := fused[row.id];
          existing := existing.(score := existing.score + contribution);
          if row.similarity > existing.bestSimilarity {
            existing := existing.(bestSimilarity := row.similarity, row := row);
          }
          fused := fused[row.id := existing];
        } else {
          fused := fused[row.id := Fused(row, contribution, row.similarity)];
          order := order + [row.id];
        }
      }
      assert listHits[..|listHits|] == listHits;
      assert rankings[..i + 1][..i] == rankings[..i];
    }
    assert rankings[..|rankings|] == rankings;
  }

  lemma EmptyFusion()
    ensures IsFusion([], map[], [])
  {}

  function Shown(row: Row): Row {
    row.(similarity := if row.similarity > 0.0 then row.similarity else 0.5)
  }

  /** Each id of the input once, by descending score and then by first occurrence, shown with its best row. */
  ghost predicate IsRanking(hits: seq<Hit>, out: seq<Row>) {
    && (forall id :: Occurs(hits, id) <==> exists i :: 0 <= i < |out| && out[i].id == id)
    && (forall i :: 0 <= i < |out| ==> ShowsBest(hits, out[i]))
    && (forall i, j :: 0 <= i < j < |out| ==> out[i].id != out[j].id && RanksAbove(hits, out[i].id, out[j].id))
  }

  /** A similarity that is not positive, as full-text hits have, is shown as one half. */
  lemma ShownReads(row: Row)
    ensures Shown(row).id == row.id && Shown(row).payload == row.payload
    ensures row.similarity > 0.0 ==> Shown(row).similarity == row.similarity
    ensures row.similarity <= 0.0 ==> Shown(row).similarity == 0.5
  {}

  ghost predicate ShowsBest(hits: seq<Hit>, shown: Row) {
    exists row :: IsBest(hits, row) && shown == Shown(row)
  }

  ghost predicate RanksAbove(hits: seq<Hit>, id: string, other: string) {
    || Score(hits, id) > Score(hits, other)
    || (Score(hits, id) == Score(hits, other) && SeenBefore(hits, id, other))
  }

  method RrfFuse(rankings: seq<seq<Row>>) returns (out: seq<Row>)
    ensures IsRanking(Hits(rankings), out)
  {
    var fused, order := Fuse(rankings);
    assert forall i :: 0 <= i < |order| ==> order[i] in order && order[i] in fused;
    var keys := seq(|order|, i requires 0 <= i < |order| => fused[order[i]].score);
    var sorted := StableSort.Sort(keys);
    out := seq(|sorted|, i requires 0 <= i < |sorted| => Shown(fused[order[sorted[i]]].row));
    SortedFusionIsRanking(Hits(rankings), fused, order, keys, sorted, out);
  }

  lemma SortedFusionIsRanking(hits: seq<Hit>, fused: map<string, Fused>, order: seq<string>,
                              keys: seq<real>, sorted: seq<nat>, out: seq<Row>)
    requires IsFusion(hits, fused, order)
    requires |keys| == |order| && forall i :: 0 <= i < |order| ==> order[i] in fused && keys[i] == fused[order[i]].score
    requires StableSort.IsStableOrder(keys, sorted)
    requires |out| == |sorted| && forall i :: 0 <= i < |out| ==> out[i] == Shown(fused[order[sorted[i]]].row)
    ensures IsRanking(hits, out)
  {
    hide Score, IsBest, SeenBefore, Occurs;
    forall i | 0 <= i < |out|
      ensures out[i].id == order[sorted[i]] && ShowsBest(hits, out[i])
    {
      assert IsBest(hits, fused[order[sorted[i]]].row);
    }
    hide ShowsBest;
    forall id ensures Occurs(hits, id) <==> exists i :: 0 <= i < |out| && out[i].id == id {
      if Occurs(hits, id) {
        assert id in order;
        var a :| 0 <= a < |order| && order[a] == id;
        assert a in sorted;
        var i :| 0 <= i < |sorted| && sorted[i] == a;
        assert out[i].id == id;
      }
    }
    forall i, j | 0 <= i < j < |out|
      ensures out[i].id != out[j].id && RanksAbove(hits, out[i].id, out[j].id)
    {
      assert StableSort.Precedes(keys, sorted[i], sorted[j]);
      assert sorted[i] != sorted[j];
    }
  }

  // ---- Swapping the lists -----------------------------------------------------------

  lemma {:induction false} ScoreConcat(a: seq<Hit>, b: seq<Hit>, id: string)
    ensures Score(a + b, id) == Score(a, id) + Score(b, id)
  {
    if b == [] {
      assert a + b == a;
    } else {
      assert (a + b)[..|a + b| - 1] == a + b[..|b| - 1];
      ScoreConcat(a, b[..|b| - 1], id);
    }
  }

  lemma BestIsUpperBound(hits: seq<Hit>, row: Row, m: nat)
    requires IsBest(hits, row) && m < |hits| && hits[m].row.id == row.id
    ensures hits[m].row.similarity <= row.similarity
  {}

  lemma BestOccurs(hits: seq<Hit>, row: Row)
    requires IsBest(hits, row)
    ensures exists k :: 0 <= k < |hits| && hits[k].row == row
  {}

  /** Which list comes first changes no id's score and no id's similarity. */
  lemma SwapChangesNothing(dense: seq<Row>, lexical: seq<Row>, id: string, r1: Row, r2: Row)
    requires r1.id == id && r2.id == id
    requires IsBest(Hits([dense, lexical]), r1) && IsBest(Hits([lexical, dense]), r2)
    ensures Score(Hits([dense, lexical]), id) == Score(Hits([lexical, dense]), id)
    ensures r1.similarity == r2.similarity
  {
    var d, l := HitsOf(dense), HitsOf(lexical);
    TwoLists(dense, lexical);
    TwoLists(lexical, dense);
    ScoreConcat(d, l, id);
    ScoreConcat(l, d, id);
    BestBelow(d, l, r1, r2);
    BestBelow(l, d, r2, r1);
  }

  lemma TwoLists(a: seq<Row>, b: seq<Row>)
    ensures Hits([a, b]) == HitsOf(a) + HitsOf(b)
  {
    assert [a, b][..1] == [a] && [a][..0] == [];
    assert Hits([a]) == HitsOf(a);
  }

  lemma BestBelow(a: seq<Hit>, b: seq<Hit>, r1: Row, r2: Row)
    requires r1.id == r2.id && IsBest(a + b, r1) && IsBest(b + a, r2)
    ensures r1.similarity <= r2.similarity
  {
    BestOccurs(a + b, r1);
    var k :| 0 <= k < |a + b| && (a + b)[k].row == r1;
    var m := if k < |a| then |b| + k else k - |a|;
    assert (b + a)[m] == (a + b)[k];
    BestIsUpperBound(b + a, r2, m);
  }

  // ---- Decay and cut ----------------------------------------------------------------

  function Decayed(row: Row, factor: real): Row {
    row.(similarity := row.similarity * factor)
  }

  /** Decay scales the similarity and nothing else; a factor up to 1 never raises a positive one. */
  lemma DecayedReads(row: Row, factor: real)
    ensures Decayed(row, factor).similarity == row.similarity * factor
    ensures Decayed(row, factor).id == row.id && Decayed(row, factor).payload == row.payload
    ensures 0.0 < factor <= 1.0 && row.similarity > 0.0 ==> 0.0 < Decayed(row, factor).similarity <= row.similarity
  {
    if 0.0 < factor <= 1.0 && row.similarity > 0.0 {
      assert row.similarity * (1.0 - factor) >= 0.0;
    }
  }

  /**
   The tail of the query: decay every row, sort by similarity with ties in the order they came,
   keep the first `limit`. Nothing that is cut is more similar than anything kept.
   */
  method DecaySortCut(rows: seq<Row>, factors: seq<real>, limit: nat) returns (out: seq<Row>, kept: seq<nat>)
    requires |rows| == |factors|
    ensures |out| == |kept| == Min(limit, |rows|)
    ensures forall i :: 0 <= i < |out| ==> kept[i] < |rows| && out[i] == Decayed(rows[kept[i]], factors[kept[i]])
    ensures forall i, j :: 0 <= i < j < |out| ==>
              out[i].similarity > out[j].similarity || (out[i].similarity == out[j].similarity && kept[i] < kept[j])
    ensures forall m: nat, i :: m < |rows| && m !in kept && 0 <= i < |out|
              ==> Decayed(rows[m], factors[m]).similarity <= out[i].similarity
  {
    var decayed := seq(|rows|, i requires 0 <= i < |rows| => Decayed(rows[i], factors[i]));
    var keys := seq(|rows|, i requires 0 <= i < |rows| => decayed[i].similarity);
    var order := StableSort.Sort(keys);
    var n := Min(limit, |order|);
    kept := order[..n];
    out := seq(n, i requires 0 <= i < n => decayed[kept[i]]);
    forall i, j | 0 <= i < j < |order| ensures StableSort.Precedes(keys, order[i], order[j]) {
      assert StableSort.Precedes(keys, order[i], order[j]);
    }
    forall m: nat, i | m < |rows| && m !in kept && 0 <= i < |out| ensures keys[m] <= keys[kept[i]] {
      assert m in order;
      var b :| 0 <= b < |order| && order[b] == m;
      assert forall c :: 0 <= c < n ==> kept[c] == order[c];
      assert b >= n;
    }
  }
}

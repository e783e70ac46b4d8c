/** Bounded clean-up of a table: rows are deleted batch by batch, only where the predicate holds. */
module Retention {

  const BATCH_SIZE := 1000
  const MAX_BATCHES_PER_TABLE := 1

  /** One `DELETE ... LIMIT n` statement; which matching rows go is up to the database. */
  method DeleteBatch<K(==), V>(rows: map<K, V>, doomed: V -> bool, limit: nat)
    returns (rest: map<K, V>, count: nat)
    ensures rest.Keys <= rows.Keys && forall k :: k in rest ==> rest[k] == rows[k]
    ensures forall k :: k in rows && k !in rest ==> doomed(rows[k])
    ensures count == |rows| - |rest| <= limit
    ensures count < limit ==> forall k :: k in rest ==> !doomed(rest[k])
  {
    rest, count := rows, 0;
    var matching := set k | k in rows && doomed(rows[k]);
    while count < limit && matching != {}
      invariant rest.Keys <= rows.Keys && forall k :: k in rest ==> rest[k] == rows[k]
      invariant forall k :: k in rows && k !in rest ==> doomed(rows[k])
      invariant matching == set k | k in rest && doomed(rest[k])
      invariant count == |rows| - |rest| <= limit
      decreases matching
    {
      var k :| k in matching;
      assert (rest - {k}).Keys == rest.Keys - {k};
      rest, count, matching := rest - {k}, count + 1, matching - {k};
    }
    assert count < limit ==> forall k :: k in rest && doomed(rest[k]) ==> k in matching;
  }

  lemma MoreBatches(size: nat, batches: nat, max: nat)
    requires batches < max
    ensures size * batches + size == size * (batches + 1) <= size * max
  {}

  /**
   Deletes at most `maxBatches` batches. Everything removed matched, the total is what is gone,
   and a total below the bound means that nothing matching is left.
   */
  method DeleteBatchedWhere<K(==), V>(rows: map<K, V>, doomed: V -> bool, batchSize: nat, maxBatches: nat)
    returns (rest: map<K, V>, total: nat)
    ensures rest.Keys <= rows.Keys && forall k :: k in rest ==> rest[k] == rows[k]
    ensures forall k :: k in rows && k !in rest ==> doomed(rows[k])
    ensures total == |rows| - |rest| <= batchSize * maxBatches
    ensures total < batchSize * maxBatches ==> forall k :: k in rest ==> !doomed(rest[k])
  {
    rest, total := rows, 0;
    var batches := 0;
    while batches < maxBatches
      invariant batches <= maxBatches
      invariant rest.Keys <= rows.Keys && forall k :: k in rest ==> rest[k] == rows[k]
      invariant forall k :: k in rows && k !in rest ==> doomed(rows[k])
      invariant total == |rows| - |rest| == batchSize * batches
    {
      MoreBatches(batchSize, batches, maxBatches);
      var count;
      rest, count := DeleteBatch(rest, doomed, batchSize);
      total, batches := total + count, batches + 1;
      if count < batchSize {
        return;
      }
    }
  }
}

/**
 The persistence outbox as a lease protocol. Workers claim a row under a fresh token for five
 minutes, then complete or fail it; they may crash at any point, be overtaken, or race with a
 re-enqueue that flips the status without touching the lease. One step is one transaction or
 the passing of time. The log keeps what each step did; a row is identified by the index of
 its insertion and a claim's token is the index of that claim, so both are fresh.
 */
module Outbox {
  import opened Common

  const LEASE_MS: nat := 5 * 60 * 1000
  const MAX_BACKOFF_MS: nat := 60 * 60 * 1000
  const DEFAULT_MAX_ATTEMPTS: nat := 8

  type Key = string

  datatype Status = Pending | Processing | Failed | Completed | Dead

  datatype Row = Row(
    id: nat, status: Status, attempts: nat, maxAttempts: nat, nextAttemptAt: nat,
    lockedUntil: Option<nat>, token: Option<nat>, createdAt: nat, updatedAt: nat)

  datatype Entry =
    | Inserted(at: nat, key: Key)
    | Requeued(at: nat, id: nat, was: Status)
    | Claimed(at: nat, id: nat, key: Key, attempt: nat, maxAttempts: nat)
    | Marked(at: nat, id: nat, token: nat, ok: bool)
    | Idle(at: nat)

  datatype World = World(now: nat, rows: map<Key, Row>, log: seq<Entry>)

  datatype Event =
    | Enqueue(key: Key)
    | Claim(key: Key)
    | Complete(token: nat)
    | Fail(token: nat)
    | Purge(cutoff: nat, batch: set<Key>)
    | Tick(ms: nat)
    | Abort

  const EMPTY := World(0, map[], [])

  // ---- The transactions -------------------------------------------------------------

  /** The claim query's WHERE clause. */
  predicate Claimable(row: Row, now: nat) {
    && (row.status == Pending || row.status == Failed
        || (row.status == Processing && row.lockedUntil.Some? && row.lockedUntil.value < now))
    && row.nextAttemptAt <= now
    && row.attempts < row.maxAttempts
    && (row.lockedUntil.None? || row.lockedUntil.value < now)
  }

  function Backoff(attempt: nat): nat {
    Min(MAX_BACKOFF_MS, 1000 * Pow2(Min(if attempt == 0 then 0 else attempt - 1, 10)))
  }

  function NewRow(id: nat, now: nat): Row {
    Row(id, Pending, 0, DEFAULT_MAX_ATTEMPTS, now, None, None, now, now)
  }

  function RequeuedRow(row: Row, now: nat): Row {
    row.(status := if row.status == Completed then Completed else Pending, nextAttemptAt := now, updatedAt := now)
  }

  function ClaimedRow(row: Row, now: nat, token: nat): Row {
    row.(status := Processing, attempts := row.attempts + 1,
         lockedUntil := Some(now + LEASE_MS), token := Some(token), updatedAt := now)
  }

  function CompletedRow(row: Row, now: nat): Row {
    row.(status := Completed, lockedUntil := None, token := None, updatedAt := now)
  }

  function FailedRow(row: Row, now: nat, attempt: nat, maxAttempts: nat): Row {
    row.(status := if attempt >= maxAttempts then Dead else Failed, lockedUntil := None, token := None,
         nextAttemptAt := now + Backoff(attempt), updatedAt := now)
  }

  /** The WHERE clause of both marks: the row is still being processed under this token. */
  predicate Holds(w: World, token: nat) {
    && token < |w.log| && w.log[token].Claimed?
    && var key := w.log[token].key;
       && key in w.rows && w.rows[key].id == w.log[token].id
       && w.rows[key].status == Processing && w.rows[key].token == Some(token)
  }

  predicate Expired(row: Row, cutoff: nat) {
    (row.status == Completed || row.status == Dead) && row.updatedAt < cutoff
  }

  function Append(w: World, rows: map<Key, Row>, e: Entry): World {
    World(w.now, rows, w.log + [e])
  }

  function Step(w: World, e: Event): World {
    match e
    case Enqueue(key) =>
      if key in w.rows then
        Append(w, w.rows[key := RequeuedRow(w.rows[key], w.now)], Requeued(w.now, w.rows[key].id, w.rows[key].status))
      else
        Append(w, w.rows[key := NewRow(|w.log|, w.now)], Inserted(w.now, key))
    case Claim(key) =>
      if key in w.rows && Claimable(w.rows[key], w.now) then
        var row := w.rows[key];
        Append(w, w.rows[key := ClaimedRow(row, w.now, |w.log|)],
               Claimed(w.now, row.id, key, row.attempts + 1, row.maxAttempts))
      else
        Append(w, w.rows, Idle(w.now))
    case Complete(token) =>
      if Holds(w, token) then
        var c := w.log[token];
        Append(w, w.rows[c.key := CompletedRow(w.rows[c.key], w.now)], Marked(w.now, c.id, token, true))
      else
        Append(w, w.rows, Idle(w.now))
    case Fail(token) =>
      if Holds(w, token) then
        var c := w.log[token];
        Append(w, w.rows[c.key := FailedRow(w.rows[c.key], w.now, c.attempt, c.maxAttempts)],
               Marked(w.now, c.id, token, false))
      else
        Append(w, w.rows, Idle(w.now))
    case Purge(cutoff, batch) =>
      Append(w, map k | k in w.rows && !(k in batch && Expired(w.rows[k], cutoff)) :: w.rows[k], Idle(w.now))
    case Tick(ms) => World(w.now + ms, w.rows, w.log + [Idle(w.now)])
    case Abort => Append(w, w.rows, Idle(w.now))
  }

  function Exec(w: World, events: seq<Event>): World {
    if events == [] then w
    else Step(Exec(w, events[..|events| - 1]), events[|events| - 1])
  }

  lemma {:induction false} ExecConcat(w: World, before: seq<Event>, after: seq<Event>)
    ensures Exec(w, before + after) == Exec(Exec(w, before), after)
  {
    hide Step;
    var all := before + after;
    if after == [] {
      assert all == before;
    } else {
      assert all[..|all| - 1] == before + after[..|after| - 1];
      ExecConcat(w, before, after[..|after| - 1]);
    }
  }

  lemma ExtendTrace(w: World, trace: seq<Event>, e: Event)
    ensures Exec(w, trace + [e]) == Step(Exec(w, trace), e)
  {
    assert (trace + [e])[..|trace|] == trace;
  }

  // ---- What the log promises --------------------------------------------------------

  predicate IsClaim(e: Entry, id: nat) { e.Claimed? && e.id == id }
  predicate IsMark(e: Entry, id: nat) { e.Marked? && e.id == id }
  predicate IsRequeue(e: Entry, id: nat) { e.Requeued? && e.id == id }

  ghost predicate NoClaim(log: seq<Entry>, id: nat, from: int, to: int)
    requires -1 <= from && to <= |log|
  {
    forall m :: from < m < to ==> !IsClaim(log[m], id)
  }

  ghost predicate NoMark(log: seq<Entry>, id: nat, from: int, to: int)
    requires -1 <= from && to <= |log|
  {
    forall m :: from < m < to ==> !IsMark(log[m], id)
  }

  ghost predicate NoRequeue(log: seq<Entry>, id: nat, from: int, to: int)
    requires -1 <= from && to <= |log|
  {
    forall m :: from < m < to ==> !IsRequeue(log[m], id)
  }

  ghost predicate Timed(log: seq<Entry>, now: nat) {
    && (forall i, j :: 0 <= i <= j < |log| ==> log[i].at <= log[j].at)
    && (forall i :: 0 <= i < |log| ==> log[i].at <= now)
  }

  /** Two claims of a row with no effective mark between them are more than a lease apart. */
  ghost predicate LeaseExclusive(log: seq<Entry>) {
    forall i, j :: 0 <= i < j < |log| && log[i].Claimed? && log[j].Claimed? && log[i].id == log[j].id
                   && NoMark(log, log[i].id, i, j)
      ==> log[j].at > log[i].at + LEASE_MS
  }

  /** An effective mark comes from the row's latest claim, with no mark and no re-enqueue since. */
  ghost predicate Fenced(log: seq<Entry>) {
    forall m :: 0 <= m < |log| && log[m].Marked? ==>
      var id, c := log[m].id, log[m].token;
      c < m && IsClaim(log[c], id) && NoClaim(log, id, c, m) && NoMark(log, id, c, m) && NoRequeue(log, id, c, m)
  }

  /** After a failure, and unless it is re-enqueued, a row is not claimed before its backoff. */
  ghost predicate BackedOff(log: seq<Entry>) {
    forall m, j :: 0 <= m < j < |log| && log[m].Marked? && !log[m].ok && log[j].Claimed? && log[j].id == log[m].id
                   && NoRequeue(log, log[m].id, m, j) && NoMark(log, log[m].id, m, j)
      ==> log[m].token < |log| && log[log[m].token].Claimed?
          && log[j].at >= log[m].at + Backoff(log[log[m].token].attempt)
  }

  function Claims(log: seq<Entry>, id: nat): nat {
    if log == [] then 0
    else Claims(log[..|log| - 1], id) + if IsClaim(log[|log| - 1], id) then 1 else 0
  }

  /** When row `id` is due: on its insertion, on its latest re-enqueue, or a backoff after its latest failure. */
  function DueAt(log: seq<Entry>, id: nat): nat {
    if log == [] then 0
    else
      var e := log[|log| - 1];
      if (e.Inserted? && id == |log| - 1) || IsRequeue(e, id) then e.at
      else if IsMark(e, id) && !e.ok && e.token < |log| && log[e.token].Claimed? then
        e.at + Backoff(log[e.token].attempt)
      else DueAt(log[..|log| - 1], id)
  }

  /** When row `id` was last inserted, claimed, marked or re-enqueued. */
  function TouchedAt(log: seq<Entry>, id: nat): nat {
    if log == [] then 0
    else
      var e := log[|log| - 1];
      if (e.Inserted? && id == |log| - 1) || Concerns(e, id) then e.at else TouchedAt(log[..|log| - 1], id)
  }

  lemma DueGrows(log: seq<Entry>, e: Entry, id: nat)
    ensures DueAt(log + [e], id)
         == if (e.Inserted? && id == |log|) || IsRequeue(e, id) then e.at
            else if IsMark(e, id) && !e.ok && e.token < |log| && log[e.token].Claimed? then
              e.at + Backoff(log[e.token].attempt)
            else DueAt(log, id)
    ensures TouchedAt(log + [e], id)
         == if (e.Inserted? && id == |log|) || Concerns(e, id) then e.at else TouchedAt(log, id)
  {
    assert (log + [e])[..|log|] == log;
  }

  // ---- The row invariant ------------------------------------------------------------

  ghost predicate HeldBy(log: seq<Entry>, row: Row, c: nat) {
    && c < |log| && IsClaim(log[c], row.id)
    && log[c].attempt == row.attempts && log[c].maxAttempts == row.maxAttempts
    && row.lockedUntil == Some(log[c].at + LEASE_MS)
    && NoClaim(log, row.id, c, |log|) && NoMark(log, row.id, c, |log|)
  }

  ghost predicate RowOk(log: seq<Entry>, key: Key, row: Row) {
    && row.id < |log| && log[row.id].Inserted? && log[row.id].key == key
    && row.attempts == Claims(log, row.id) <= row.maxAttempts
    && (row.token.Some? ==> HeldBy(log, row, row.token.value))
    && (row.token.None? ==>
          row.lockedUntil.None?
          && forall i :: 0 <= i < |log| && IsClaim(log[i], row.id) ==> !NoMark(log, row.id, i, |log|))
    && (row.status == Processing <==> row.token.Some? && NoRequeue(log, row.id, row.token.value, |log|))
    && row.maxAttempts == DEFAULT_MAX_ATTEMPTS
    && (row.status == Completed ==> row.token.None?)
    && (row.status == Dead ==> row.attempts == row.maxAttempts)
    && (row.status == Failed ==> row.attempts < row.maxAttempts)
    && Awaits(log, row.id, row.nextAttemptAt)
    && row.nextAttemptAt == DueAt(log, row.id)
    && row.createdAt == log[row.id].at && row.updatedAt == TouchedAt(log, row.id)
  }

  /** The next attempt is due when the backoff of the latest failure ends, unless re-enqueued since. */
  ghost predicate Awaits(log: seq<Entry>, id: nat, nextAttemptAt: nat) {
    forall m :: 0 <= m < |log| && IsMark(log[m], id) && !log[m].ok
                && NoRequeue(log, id, m, |log|) && NoMark(log, id, m, |log|)
      ==> log[m].token < |log| && log[log[m].token].Claimed?
          && nextAttemptAt == log[m].at + Backoff(log[log[m].token].attempt)
  }

  lemma AwaitsExtends(log: seq<Entry>, e: Entry, id: nat, nextAttemptAt: nat)
    requires Awaits(log, id, nextAttemptAt) && !IsMark(e, id)
    ensures Awaits(log + [e], id, nextAttemptAt)
  {
    hide Backoff;
    var log' := log + [e];
    forall m | 0 <= m < |log'| && IsMark(log'[m], id) && !log'[m].ok
               && NoRequeue(log', id, m, |log'|) && NoMark(log', id, m, |log'|)
      ensures log'[m].token < |log'| && log'[log'[m].token].Claimed?
              && nextAttemptAt == log'[m].at + Backoff(log'[log'[m].token].attempt)
    {
      assert log'[m] == log[m];
      assert forall k :: m < k < |log| ==> log'[k] == log[k];
    }
  }

  ghost predicate Ok(w: World) {
    && Timed(w.log, w.now) && LeaseExclusive(w.log) && Fenced(w.log) && BackedOff(w.log)
    && (forall key :: key in w.rows ==> RowOk(w.log, key, w.rows[key]))
    && EntriesPlaced(w.log)
  }

  /** Entries about a row come after its insertion; a claim names the key it was inserted under. */
  ghost predicate EntriesPlaced(log: seq<Entry>) {
    && (forall i :: 0 <= i < |log| && (log[i].Claimed? || log[i].Marked? || log[i].Requeued?) ==> log[i].id < i)
    && (forall i :: 0 <= i < |log| && log[i].Claimed? ==> Inserted(log[log[i].id].at, log[i].key) == log[log[i].id])
  }

  predicate Concerns(e: Entry, id: nat) {
    IsClaim(e, id) || IsMark(e, id) || IsRequeue(e, id)
  }

  lemma ClaimsGrow(log: seq<Entry>, e: Entry, id: nat)
    ensures Claims(log + [e], id) == Claims(log, id) + if IsClaim(e, id) then 1 else 0
  {
    assert (log + [e])[..|log|] == log;
  }

  /** An entry about other rows leaves a row's standing as it was. */
  lemma RowFrame(log: seq<Entry>, e: Entry, key: Key, row: Row)
    requires RowOk(log, key, row) && !Concerns(e, row.id)
    ensures RowOk(log + [e], key, row)
  {
    var log' := log + [e];
    ClaimsGrow(log, e, row.id);
    DueGrows(log, e, row.id);
    forall i | 0 <= i < |log|
      ensures NoMark(log', row.id, i, |log'|) == NoMark(log, row.id, i, |log|)
      ensures NoRequeue(log', row.id, i, |log'|) == NoRequeue(log, row.id, i, |log|)
    {
      assert forall m :: i < m < |log| ==> log'[m] == log[m];
      assert log'[|log|] == e;
    }
  }

  lemma WindowsKept(log: seq<Entry>, e: Entry, id: nat, i: nat, j: nat)
    requires i < j <= |log|
    ensures NoMark(log + [e], id, i, j) == NoMark(log, id, i, j)
    ensures NoRequeue(log + [e], id, i, j) == NoRequeue(log, id, i, j)
    ensures NoClaim(log + [e], id, i, j) == NoClaim(log, id, i, j)
  {
    assert forall m :: i < m < j ==> (log + [e])[m] == log[m];
  }

  ghost predicate MayClaim(log: seq<Entry>, id: nat, at: nat) {
    && (forall i :: 0 <= i < |log| && IsClaim(log[i], id) && NoMark(log, id, i, |log|) ==> at > log[i].at + LEASE_MS)
    && (forall m :: 0 <= m < |log| && IsMark(log[m], id) && !log[m].ok
                    && NoRequeue(log, id, m, |log|) && NoMark(log, id, m, |log|)
          ==> log[m].token < |log| && log[log[m].token].Claimed?
              && at >= log[m].at + Backoff(log[log[m].token].attempt))
  }

  lemma ExclusiveExtends(log: seq<Entry>, e: Entry)
    requires LeaseExclusive(log)
    requires e.Claimed? ==> MayClaim(log, e.id, e.at)
    ensures LeaseExclusive(log + [e])
  {
    var log' := log + [e];
    forall i, j | 0 <= i < j < |log'| && log'[i].Claimed? && log'[j].Claimed? && log'[i].id == log'[j].id
                  && NoMark(log', log'[i].id, i, j)
      ensures log'[j].at > log'[i].at + LEASE_MS
    {
      WindowsKept(log, e, log[i].id, i, j);
      if j < |log| {
        assert log'[j] == log[j];
      }
    }
  }

  lemma FencedExtends(log: seq<Entry>, e: Entry)
    requires Fenced(log)
    requires e.Marked? ==>
      e.token < |log| && IsClaim(log[e.token], e.id) && NoClaim(log, e.id, e.token, |log|)
      && NoMark(log, e.id, e.token, |log|) && NoRequeue(log, e.id, e.token, |log|)
    ensures Fenced(log + [e])
  {
    var log' := log + [e];
    forall m | 0 <= m < |log'| && log'[m].Marked?
      ensures var id, c := log'[m].id, log'[m].token;
              && c < m && IsClaim(log'[c], id)
              && NoClaim(log', id, c, m) && NoMark(log', id, c, m) && NoRequeue(log', id, c, m)
    {
      var id, c := log'[m].id, log'[m].token;
      if m < |log| {
        assert log'[m] == log[m];
      }
      WindowsKept(log, e, id, c, m);
    }
  }

  lemma BackedOffExtends(log: seq<Entry>, e: Entry)
    requires BackedOff(log)
    requires e.Claimed? ==> MayClaim(log, e.id, e.at)
    ensures BackedOff(log + [e])
  {
    var log' := log + [e];
    forall m, j | 0 <= m < j < |log'| && log'[m].Marked? && !log'[m].ok && log'[j].Claimed? && log'[j].id == log'[m].id
                  && NoRequeue(log', log'[m].id, m, j) && NoMark(log', log'[m].id, m, j)
      ensures log'[m].token < |log'| && log'[log'[m].token].Claimed?
              && log'[j].at >= log'[m].at + Backoff(log'[log'[m].token].attempt)
    {
      WindowsKept(log, e, log[m].id, m, j);
      assert log'[m] == log[m];
      if j < |log| {
        assert log'[j] == log[j];
      }
    }
  }

  // ---- Every step keeps the invariant -----------------------------------------------

  lemma RowInserted(log: seq<Entry>, e: Entry, key: Key, row: Row)
    requires e.Inserted? && e.key == key && row == NewRow(|log|, e.at)
    requires forall i :: 0 <= i < |log| && (log[i].Claimed? || log[i].Marked? || log[i].Requeued?) ==> log[i].id < |log|
    ensures RowOk(log + [e], key, row)
  {
    NoClaimsYet(log, |log|);
    ClaimsGrow(log, e, |log|);
    DueGrows(log, e, |log|);
  }

  lemma {:induction false} NoClaimsYet(log: seq<Entry>, id: nat)
    requires forall i :: 0 <= i < |log| ==> !IsClaim(log[i], id)
    ensures Claims(log, id) == 0
  {
    if log != [] {
      NoClaimsYet(log[..|log| - 1], id);
    }
  }

  lemma RowRequeued(log: seq<Entry>, e: Entry, key: Key, row: Row)
    requires RowOk(log, key, row) && IsRequeue(e, row.id)
    ensures RowOk(log + [e], key, RequeuedRow(row, e.at))
  {
    var log' := log + [e];
    ClaimsGrow(log, e, row.id);
    DueGrows(log, e, row.id);
    assert log'[|log|] == e;
    forall i | 0 <= i < |log|
      ensures NoMark(log', row.id, i, |log'|) == NoMark(log, row.id, i, |log|)
      ensures !NoRequeue(log', row.id, i, |log'|)
    {
      WindowsKept(log, e, row.id, i, |log|);
    }
  }

  lemma ClaimIsDue(log: seq<Entry>, at: nat, key: Key, row: Row)
    requires RowOk(log, key, row) && Claimable(row, at) && Timed(log, at)
    ensures MayClaim(log, row.id, at)
  {
    forall i | 0 <= i < |log| && IsClaim(log[i], row.id) && NoMark(log, row.id, i, |log|)
      ensures at > log[i].at + LEASE_MS
    {
      var c := row.token.value;
      assert i <= c;
      assert log[i].at <= log[c].at;
    }
  }

  lemma RowClaimed(log: seq<Entry>, e: Entry, key: Key, row: Row)
    requires RowOk(log, key, row) && Claimable(row, e.at)
    requires e == Claimed(e.at, row.id, key, row.attempts + 1, row.maxAttempts)
    ensures RowOk(log + [e], key, ClaimedRow(row, e.at, |log|))
  {
    ClaimsGrow(log, e, row.id);
    DueGrows(log, e, row.id);
    AwaitsExtends(log, e, row.id, row.nextAttemptAt);
    assert HeldBy(log + [e], ClaimedRow(row, e.at, |log|), |log|);
    hide Awaits, HeldBy, NoMark;
  }

  lemma RowMarked(log: seq<Entry>, e: Entry, key: Key, row: Row, row': Row)
    requires RowOk(log, key, row) && row.status == Processing && row.token.Some?
    requires e.Marked? && e.id == row.id && e.token == row.token.value && e.token < |log|
    requires row' == if e.ok then CompletedRow(row, e.at)
                     else FailedRow(row, e.at, log[e.token].attempt, log[e.token].maxAttempts)
    ensures RowOk(log + [e], key, row')
  {
    var log' := log + [e];
    ClaimsGrow(log, e, row.id);
    DueGrows(log, e, row.id);
    assert log'[|log|] == e;
    forall i | 0 <= i < |log|
      ensures !NoMark(log', row.id, i, |log'|)
    {
      assert IsMark(log'[|log|], row.id);
    }
  }

  /** The key whose row a step changes or inserts. */
  function TouchedKey(w: World, e: Event): Option<Key> {
    match e
    case Enqueue(key) => Some(key)
    case Claim(key) => if key in w.rows && Claimable(w.rows[key], w.now) then Some(key) else None
    case Complete(token) => if Holds(w, token) then Some(w.log[token].key) else None
    case Fail(token) => if Holds(w, token) then Some(w.log[token].key) else None
    case _ => None
  }

  lemma RowIdentity(log: seq<Entry>, key: Key, row: Row)
    requires RowOk(log, key, row)
    ensures row.id < |log| && log[row.id].Inserted? && log[row.id].key == key
    ensures row.token.Some? ==> HeldBy(log, row, row.token.value)
    ensures row.status == Processing ==> row.token.Some? && NoRequeue(log, row.id, row.token.value, |log|)
  {}

  lemma RowFacts(w: World, key: Key)
    requires Ok(w) && key in w.rows
    ensures var row := w.rows[key];
            && row.id < |w.log| && w.log[row.id].Inserted? && w.log[row.id].key == key
            && row.attempts == Claims(w.log, row.id) <= row.maxAttempts == DEFAULT_MAX_ATTEMPTS
            && (row.status == Processing ==> row.token.Some?)
            && (row.status == Completed ==> row.token.None?)
            && (row.status == Dead ==> row.attempts == row.maxAttempts)
            && (row.status == Failed ==> row.attempts < row.maxAttempts)
            && row.nextAttemptAt == DueAt(w.log, row.id)
            && row.createdAt == w.log[row.id].at && row.updatedAt == TouchedAt(w.log, row.id)
            && (row.token.Some? ==> row.token.value < |w.log| && IsClaim(w.log[row.token.value], row.id)
                                    && w.log[row.token.value].attempt == row.attempts
                                    && w.log[row.token.value].maxAttempts == row.maxAttempts)
  {
    hide LeaseExclusive, Fenced, BackedOff, NoMark, NoClaim, NoRequeue, EntriesPlaced, Timed;
    assert RowOk(w.log, key, w.rows[key]);
  }

  lemma TouchedRowOk(w: World, e: Event, key: Key)
    requires Ok(w) && TouchedKey(w, e) == Some(key)
    ensures RowOk(Step(w, e).log, key, Step(w, e).rows[key])
    ensures var last := Step(w, e).log[|w.log|];
            last.Claimed? ==> MayClaim(w.log, last.id, last.at)
    ensures var last := Step(w, e).log[|w.log|];
            last.Marked? ==> HeldBy(w.log, w.rows[key], last.token) && last.id == w.rows[key].id
                             && NoRequeue(w.log, last.id, last.token, |w.log|)
    ensures Step(w, e).log[|w.log|].at == w.now
    ensures var last := Step(w, e).log[|w.log|];
            if key in w.rows then (last.Claimed? || last.Marked? || last.Requeued?) && last.id == w.rows[key].id
            else last.Inserted?
  {
    hide RowOk, LeaseExclusive, Fenced, BackedOff, NoMark, NoClaim, NoRequeue, MayClaim;
    var w' := Step(w, e);
    var last := w'.log[|w.log|];
    assert w'.log == w.log + [last];
    if key in w.rows {
      var row := w.rows[key];
      assert RowOk(w.log, key, row);
      RowIdentity(w.log, key, row);
      if last.Requeued? {
        RowRequeued(w.log, last, key, row);
      } else if last.Claimed? {
        ClaimIsDue(w.log, last.at, key, row);
        RowClaimed(w.log, last, key, row);
      } else {
        RowMarked(w.log, last, key, row, w'.rows[key]);
      }
    } else {
      RowInserted(w.log, last, key, w'.rows[key]);
    }
  }

  lemma OtherRowOk(w: World, e: Event, key: Key)
    requires Ok(w) && key in Step(w, e).rows && TouchedKey(w, e) != Some(key)
    ensures RowOk(Step(w, e).log, key, Step(w, e).rows[key])
  {
    hide RowOk, LeaseExclusive, Fenced, BackedOff, HeldBy, NoMark, NoClaim, NoRequeue;
    var w' := Step(w, e);
    var last := w'.log[|w.log|];
    assert w'.log == w.log + [last];
    var touched := TouchedKey(w, e);
    assert w'.rows[key] == w.rows[key];
    assert RowOk(w.log, key, w.rows[key]);
    RowIdentity(w.log, key, w.rows[key]);
    if touched.Some? && touched.value in w.rows {
      assert RowOk(w.log, touched.value, w.rows[touched.value]);
      RowIdentity(w.log, touched.value, w.rows[touched.value]);
    }
    RowFrame(w.log, last, key, w.rows[key]);
  }

  lemma PlacesKept(w: World, e: Event)
    requires Ok(w)
    ensures EntriesPlaced(Step(w, e).log)
  {
    hide RowOk, LeaseExclusive, Fenced, BackedOff, Timed, HeldBy;
    assert Step(w, e).log == w.log + [Step(w, e).log[|w.log|]];
    if TouchedKey(w, e).Some? && TouchedKey(w, e).value in w.rows {
      var key := TouchedKey(w, e).value;
      assert RowOk(w.log, key, w.rows[key]);
      RowIdentity(w.log, key, w.rows[key]);
    }
  }

  lemma LogKept(w: World, e: Event)
    requires Ok(w)
    ensures var w' := Step(w, e);
            && Timed(w'.log, w'.now) && LeaseExclusive(w'.log) && Fenced(w'.log)
            && BackedOff(w'.log) && EntriesPlaced(w'.log)
  {
    hide RowOk, LeaseExclusive, Fenced, BackedOff, NoMark, NoClaim, NoRequeue, MayClaim, EntriesPlaced;
    var w' := Step(w, e);
    var last := w'.log[|w.log|];
    assert w'.log == w.log + [last];
    PlacesKept(w, e);
    if TouchedKey(w, e).Some? {
      TouchedRowOk(w, e, TouchedKey(w, e).value);
    } else {
      assert last == Idle(w.now);
    }
    ExclusiveExtends(w.log, last);
    FencedExtends(w.log, last);
    BackedOffExtends(w.log, last);
  }

  lemma StepKeepsOk(w: World, e: Event)
    requires Ok(w)
    ensures Ok(Step(w, e))
  {
    hide RowOk, Timed, LeaseExclusive, Fenced, BackedOff, EntriesPlaced, Step, TouchedKey;
    LogKept(w, e);
    forall key | key in Step(w, e).rows ensures RowOk(Step(w, e).log, key, Step(w, e).rows[key]) {
      if TouchedKey(w, e) == Some(key) {
        TouchedRowOk(w, e, key);
      } else {
        OtherRowOk(w, e, key);
      }
    }
  }

  lemma {:induction false} ExecKeepsOk(w: World, events: seq<Event>)
    requires Ok(w)
    ensures Ok(Exec(w, events))
  {
    hide Ok, Step;
    if events != [] {
      ExecKeepsOk(w, events[..|events| - 1]);
      StepKeepsOk(Exec(w, events[..|events| - 1]), events[|events| - 1]);
    }
  }

  lemma Reachable(events: seq<Event>)
    ensures Ok(Exec(EMPTY, events))
  {
    ExecKeepsOk(EMPTY, events);
  }

  // ---- Leases and fencing -----------------------------------------------------------

  /** No two workers hold a row at once: unmarked claims are more than five minutes apart. */
  lemma LeaseExclusion(events: seq<Event>, i: nat, j: nat)
    requires var log := Exec(EMPTY, events).log;
             i < j < |log| && log[i].Claimed? && log[j].Claimed? && log[i].id == log[j].id
             && forall m :: i < m < j ==> !IsMark(log[m], log[i].id)
    ensures var log := Exec(EMPTY, events).log;
            log[j].at > log[i].at + LEASE_MS
  {
    Reachable(events);
  }

  /**
   A mark takes effect exactly when its row is still there and nothing has happened to it since
   the claim: no later claim, no other mark and no re-enqueue.
   */
  lemma MarkIsFenced(events: seq<Event>, c: nat)
    requires c < |Exec(EMPTY, events).log| && Exec(EMPTY, events).log[c].Claimed?
    ensures var w := Exec(EMPTY, events);
            var claim := w.log[c];
            Holds(w, c) <==> claim.key in w.rows && w.rows[claim.key].id == claim.id
                             && forall m :: c < m < |w.log| ==> !Concerns(w.log[m], claim.id)
    ensures var w := Exec(EMPTY, events);
            !Holds(w, c) ==> Step(w, Complete(c)).rows == w.rows && Step(w, Fail(c)).rows == w.rows
  {
    hide Ok, RowOk, Concerns, Step;
    Reachable(events);
    var w := Exec(EMPTY, events);
    var claim := w.log[c];
    if claim.key in w.rows && w.rows[claim.key].id == claim.id {
      RowIsOk(w, claim.key);
      HeldWhileUntouched(w.log, claim.key, w.rows[claim.key], c);
    }
    if !Holds(w, c) {
      MarkNeedsHold(w, c);
    }
  }

  lemma RowIsOk(w: World, key: Key)
    requires Ok(w) && key in w.rows
    ensures RowOk(w.log, key, w.rows[key])
  {
    hide RowOk;
  }

  lemma MarkNeedsHold(w: World, token: nat)
    requires !Holds(w, token)
    ensures Step(w, Complete(token)).rows == w.rows && Step(w, Fail(token)).rows == w.rows
  {}

  lemma HeldWhileUntouched(log: seq<Entry>, key: Key, row: Row, c: nat)
    requires RowOk(log, key, row) && c < |log| && IsClaim(log[c], row.id)
    ensures (row.status == Processing && row.token == Some(c))
            <==> forall m :: c < m < |log| ==> !Concerns(log[m], row.id)
  {
    hide Awaits, Claims;
    if forall m :: c < m < |log| ==> !Concerns(log[m], row.id) {
      assert NoMark(log, row.id, c, |log|);
      assert row.token.Some? && row.token.value == c;
    }
  }

  /** A completion or failure after a re-enqueue comes from a claim made after it. */
  lemma NoLostRequeue(events: seq<Event>, e: nat, m: nat)
    requires var log := Exec(EMPTY, events).log;
             e < m < |log| && log[e].Requeued? && log[m].Marked? && log[m].id == log[e].id
    ensures var log := Exec(EMPTY, events).log;
            e < log[m].token < m && IsClaim(log[log[m].token], log[e].id)
  {
    hide Exec, RowOk;
    Reachable(events);
    MarkFollowsRequeue(Exec(EMPTY, events).log, e, m);
  }

  lemma MarkFollowsRequeue(log: seq<Entry>, e: nat, m: nat)
    requires Fenced(log) && e < m < |log| && log[e].Requeued? && log[m].Marked? && log[m].id == log[e].id
    ensures e < log[m].token < m && IsClaim(log[log[m].token], log[e].id)
  {
    assert IsRequeue(log[e], log[m].id);
  }

  // ---- When a row is claimed --------------------------------------------------------

  /** The next claim of `key` takes its row, as its entry in the log shows; the row exists. */
  predicate ClaimSucceeds(w: World, key: Key)
    ensures ClaimSucceeds(w, key) ==> key in w.rows
  {
    var w' := Step(w, Claim(key));
    |w'.log| == |w.log| + 1 && w'.log[|w.log|].Claimed?
  }

  /** Each claim of this row is more than five minutes old or was marked since. */
  ghost predicate LeasesOver(log: seq<Entry>, id: nat, now: nat) {
    forall i :: 0 <= i < |log| && IsClaim(log[i], id) && NoMark(log, id, i, |log|) ==> log[i].at + 300_000 < now
  }

  lemma LockTellsLeases(log: seq<Entry>, key: Key, row: Row, now: nat)
    requires RowOk(log, key, row) && Timed(log, now)
    ensures LeasesOver(log, row.id, now) <==> row.lockedUntil.None? || row.lockedUntil.value < now
  {
    hide Awaits, Claims, DueAt;
    if row.token.Some? {
      var c := row.token.value;
      assert HeldBy(log, row, c);
      forall i | 0 <= i < |log| && IsClaim(log[i], row.id) ensures log[i].at <= log[c].at {
        assert i <= c;
      }
    }
  }

  /**
   A claim succeeds, in every reachable state, exactly when the row is there and not finished, has
   been claimed fewer than eight times, is due, and no lease on it is running: an expired lease is
   taken over like none at all.
   */
  lemma ClaimedIff(events: seq<Event>, key: Key)
    ensures var w := Exec(EMPTY, events);
            var w' := Step(w, Claim(key));
            && (ClaimSucceeds(w, key)
                <==> && key in w.rows
                     && w.rows[key].status != Completed && w.rows[key].status != Dead
                     && Claims(w.log, w.rows[key].id) < 8
                     && DueAt(w.log, w.rows[key].id) <= w.now
                     && LeasesOver(w.log, w.rows[key].id, w.now))
            && (ClaimSucceeds(w, key) ==>
                  w'.log[|w.log|] == Claimed(w.now, w.rows[key].id, key, Claims(w.log, w.rows[key].id) + 1, 8))
  {
    hide Exec, RowOk, LeasesOver;
    var w := Exec(EMPTY, events);
    Reachable(events);
    if key in w.rows {
      RowIsOk(w, key);
      LockTellsLeases(w.log, key, w.rows[key], w.now);
      RowFacts(w, key);
      ProcessingIsLocked(w.log, key, w.rows[key]);
    }
  }

  lemma ProcessingIsLocked(log: seq<Entry>, key: Key, row: Row)
    requires RowOk(log, key, row)
    ensures row.status == Processing ==> row.lockedUntil.Some?
  {
    hide Awaits, Claims, DueAt;
  }

  /** Row `key` is as its claim left it, but for re-enqueues. */
  ghost predicate StillHeld(w: World, key: Key, token: nat, id: nat, attempts: nat, lockedUntil: nat) {
    && key in w.rows
    && var row := w.rows[key];
       && row.id == id && row.token == Some(token) && row.attempts == attempts
       && row.maxAttempts == DEFAULT_MAX_ATTEMPTS && row.lockedUntil == Some(lockedUntil)
       && row.nextAttemptAt <= w.now && (row.status == Processing || row.status == Pending)
  }

  lemma HeldStep(w: World, e: Event, key: Key, token: nat, id: nat, attempts: nat, lockedUntil: nat)
    requires StillHeld(w, key, token, id, attempts, lockedUntil)
    requires e != Complete(token) && e != Fail(token) && e != Claim(key)
    ensures StillHeld(Step(w, e), key, token, id, attempts, lockedUntil)
  {
    if TouchedKey(w, e) == Some(key) {
      MarkTouchesProcessing(w, e, key);
    }
  }

  lemma {:induction false} HeldRun(w: World, events: seq<Event>, key: Key, token: nat, id: nat, attempts: nat,
                                   lockedUntil: nat)
    requires StillHeld(w, key, token, id, attempts, lockedUntil)
    requires NeverMarked(events, token) && Claim(key) !in events
    ensures StillHeld(Exec(w, events), key, token, id, attempts, lockedUntil)
  {
    hide Step, StillHeld;
    if events != [] {
      var n := |events| - 1;
      HeldRun(w, events[..n], key, token, id, attempts, lockedUntil);
      HeldStep(Exec(w, events[..n]), events[n], key, token, id, attempts, lockedUntil);
    }
  }

  /**
   The row of a crashed worker, one that never marks it, is claimed again by the next claim exactly
   when the lease of five minutes is over, as long as it has attempts left.
   */
  lemma CrashedIsTakenOver(before: seq<Event>, key: Key, events: seq<Event>)
    requires ClaimSucceeds(Exec(EMPTY, before), key)
    requires Claims(Exec(EMPTY, before).log, Exec(EMPTY, before).rows[key].id) + 1 < 8
    requires NeverMarked(events, |Exec(EMPTY, before).log|) && Claim(key) !in events
    ensures var claimed := Exec(EMPTY, before).now;
            var w := Exec(Step(Exec(EMPTY, before), Claim(key)), events);
            ClaimSucceeds(w, key) <==> w.now > claimed + 300_000
  {
    var w := Exec(EMPTY, before);
    Reachable(before);
    ClaimStartsHold(w, key);
    hide *;
    var row := w.rows[key];
    HeldRun(Step(w, Claim(key)), events, key, |w.log|, row.id, row.attempts + 1, w.now + 300_000);
    HeldIsClaimedIff(Exec(Step(w, Claim(key)), events), key, |w.log|, row.id, row.attempts + 1, w.now + 300_000);
  }

  lemma ClaimStartsHold(w: World, key: Key)
    requires Ok(w) && ClaimSucceeds(w, key)
    ensures key in w.rows && w.rows[key].attempts == Claims(w.log, w.rows[key].id)
    ensures StillHeld(Step(w, Claim(key)), key, |w.log|, w.rows[key].id, w.rows[key].attempts + 1, w.now + 300_000)
  {
    hide Ok;
    RowFacts(w, key);
  }

  lemma HeldIsClaimedIff(w: World, key: Key, token: nat, id: nat, attempts: nat, lockedUntil: nat)
    requires StillHeld(w, key, token, id, attempts, lockedUntil) && attempts < 8
    ensures ClaimSucceeds(w, key) <==> lockedUntil < w.now
  {}

  /** A purge takes a row exactly when it is in the batch, finished, and untouched since the cutoff. */
  lemma PurgeTakesIff(events: seq<Event>, cutoff: nat, batch: set<Key>, key: Key)
    requires key in Exec(EMPTY, events).rows
    ensures var w := Exec(EMPTY, events);
            key !in Step(w, Purge(cutoff, batch)).rows
            <==> key in batch && (w.rows[key].status == Completed || w.rows[key].status == Dead)
                 && TouchedAt(w.log, w.rows[key].id) < cutoff
  {
    hide Ok, Exec;
    Reachable(events);
    RowFacts(Exec(EMPTY, events), key);
  }

  /** The times of a row are those of its entries in the log. */
  lemma RowTimes(events: seq<Event>, key: Key)
    requires key in Exec(EMPTY, events).rows
    ensures var w := Exec(EMPTY, events);
            var row := w.rows[key];
            && row.id < |w.log| && row.createdAt == w.log[row.id].at
            && row.updatedAt == TouchedAt(w.log, row.id) && row.nextAttemptAt == DueAt(w.log, row.id)
  {
    hide Ok, Exec;
    Reachable(events);
    RowFacts(Exec(EMPTY, events), key);
  }

  // ---- Attempts and terminal rows ---------------------------------------------------

  lemma AttemptStep(w: World, e: Event, id: nat)
    requires Ok(w) && Claims(w.log, id) <= DEFAULT_MAX_ATTEMPTS
    ensures Claims(Step(w, e).log, id) <= DEFAULT_MAX_ATTEMPTS
  {
    hide Ok, RowOk, HeldBy, NoMark, NoClaim, NoRequeue;
    var last := Step(w, e).log[|w.log|];
    assert Step(w, e).log == w.log + [last];
    ClaimsGrow(w.log, last, id);
    if IsClaim(last, id) {
      StepKeepsOk(w, e);
      RowFacts(Step(w, e), last.key);
    }
  }

  /** Every row, purged or not, is claimed at most eight times; the column counts the claims. */
  lemma {:induction false} AttemptsAreClaims(events: seq<Event>, id: nat)
    ensures Claims(Exec(EMPTY, events).log, id) <= DEFAULT_MAX_ATTEMPTS
    ensures forall key :: key in Exec(EMPTY, events).rows && Exec(EMPTY, events).rows[key].id == id
              ==> Exec(EMPTY, events).rows[key].attempts == Claims(Exec(EMPTY, events).log, id)
  {
    hide Ok, Step;
    var w' := Exec(EMPTY, events);
    Reachable(events);
    forall key | key in w'.rows && w'.rows[key].id == id ensures w'.rows[key].attempts == Claims(w'.log, id) {
      RowFacts(w', key);
    }
    if events != [] {
      var n := |events| - 1;
      AttemptsAreClaims(events[..n], id);
      Reachable(events[..n]);
      AttemptStep(Exec(EMPTY, events[..n]), events[n], id);
    }
  }

  lemma {:induction false} ClaimsMonotone(w: World, events: seq<Event>, id: nat)
    ensures Claims(Exec(w, events).log, id) >= Claims(w.log, id)
    ensures |Exec(w, events).log| == |w.log| + |events|
  {
    hide Step, Claims;
    if events != [] {
      var n := |events| - 1;
      ClaimsMonotone(w, events[..n], id);
      var w1, w2 := Exec(w, events[..n]), Exec(w, events);
      LogExtends(w1, events[n]);
      ClaimsGrow(w1.log, w2.log[|w1.log|], id);
    }
  }

  /** A dead row has used up its attempts, so re-enqueuing it never leads to another claim. */
  lemma DeadIsNeverClaimed(before: seq<Event>, after: seq<Event>, key: Key)
    requires key in Exec(EMPTY, before).rows && Exec(EMPTY, before).rows[key].status == Dead
    ensures var id := Exec(EMPTY, before).rows[key].id;
            Claims(Exec(EMPTY, before + after).log, id) == Claims(Exec(EMPTY, before).log, id) == DEFAULT_MAX_ATTEMPTS
  {
    var w := Exec(EMPTY, before);
    Reachable(before);
    assert RowOk(w.log, key, w.rows[key]);
    AttemptsAreClaims(before + after, w.rows[key].id);
    ExecConcat(EMPTY, before, after);
    ClaimsMonotone(w, after, w.rows[key].id);
  }

  /** A step that changes an existing row is a re-enqueue, a claim, or its holder's mark. */
  lemma MarkTouchesProcessing(w: World, e: Event, key: Key)
    requires key in w.rows && TouchedKey(w, e) == Some(key)
    ensures || e == Enqueue(key)
            || (e == Claim(key) && Claimable(w.rows[key], w.now))
            || ((e.Complete? || e.Fail?) && w.rows[key].status == Processing && w.rows[key].token == Some(e.token)
                && Step(w, e).log[|w.log|] == Marked(w.now, w.rows[key].id, e.token, e.Complete?))
  {}

  ghost predicate CompletedOrGone(w: World, key: Key, id: nat, attempts: nat) {
    key in w.rows && w.rows[key].id == id ==> w.rows[key].status == Completed && w.rows[key].attempts == attempts
  }

  lemma CompletedStep(w: World, e: Event, key: Key, id: nat, attempts: nat)
    requires Ok(w) && id < |w.log| && CompletedOrGone(w, key, id, attempts)
    ensures CompletedOrGone(Step(w, e), key, id, attempts)
  {
    hide Ok, RowOk;
    if TouchedKey(w, e) == Some(key) && key in w.rows && w.rows[key].id == id {
      MarkTouchesProcessing(w, e, key);
      RowFacts(w, key);
    }
  }

  /** While a completed row exists, it stays completed. */
  lemma {:induction false} CompletedIsFinal(w: World, events: seq<Event>, key: Key)
    requires Ok(w) && key in w.rows && w.rows[key].status == Completed
    ensures var w' := Exec(w, events);
            key in w'.rows && w'.rows[key].id == w.rows[key].id
            ==> w'.rows[key].status == Completed && w'.rows[key].attempts == w.rows[key].attempts
  {
    hide Ok, Step;
    RowFacts(w, key);
    if events != [] {
      var n := |events| - 1;
      CompletedIsFinal(w, events[..n], key);
      ClaimsMonotone(w, events[..n], 0);
      ExecKeepsOk(w, events[..n]);
      CompletedStep(Exec(w, events[..n]), events[n], key, w.rows[key].id, w.rows[key].attempts);
    }
  }

  /** A mark that ends row `id`: its replay succeeded, or its last attempt failed. */
  predicate Finishes(log: seq<Entry>, m: nat, id: nat)
    requires m < |log|
  {
    && IsMark(log[m], id) && log[m].token < m
    && (log[m].ok || (log[log[m].token].Claimed? && log[log[m].token].attempt == DEFAULT_MAX_ATTEMPTS))
  }

  ghost predicate Finished(log: seq<Entry>, id: nat) {
    exists m :: 0 <= m < |log| && Finishes(log, m, id)
  }

  /** Row `id` was finished by a mark, or it is in the table, neither completed nor dead. */
  ghost predicate Tracked(w: World, id: nat)
    requires id < |w.log| && w.log[id].Inserted?
  {
    var key := w.log[id].key;
    || Finished(w.log, id)
    || (key in w.rows && w.rows[key].id == id && w.rows[key].status != Completed && w.rows[key].status != Dead)
  }

  /** Retention drops no pending work: a row leaves the table only once a mark has finished it. */
  lemma {:induction false} NothingIsDropped(events: seq<Event>, id: nat)
    requires id < |Exec(EMPTY, events).log| && Exec(EMPTY, events).log[id].Inserted?
    ensures Tracked(Exec(EMPTY, events), id)
  {
    hide Ok, Step, Tracked;
    if events != [] {
      var n := |events| - 1;
      var w := Exec(EMPTY, events[..n]);
      Reachable(events[..n]);
      LogExtends(w, events[n]);
      if id < |w.log| {
        NothingIsDropped(events[..n], id);
        DroppedStep(w, events[n], id);
      } else {
        InsertedIsTracked(w, events[n]);
      }
    }
  }

  lemma LogExtends(w: World, e: Event)
    ensures |Step(w, e).log| == |w.log| + 1 && Step(w, e).log == w.log + [Step(w, e).log[|w.log|]]
  {}

  lemma InsertedIsTracked(w: World, e: Event)
    requires Step(w, e).log[|w.log|].Inserted?
    ensures Tracked(Step(w, e), |w.log|)
  {}

  lemma FinishedExtends(log: seq<Entry>, e: Entry, id: nat)
    requires Finished(log, id)
    ensures Finished(log + [e], id)
  {
    var m :| 0 <= m < |log| && Finishes(log, m, id);
    assert Finishes(log + [e], m, id);
  }

  lemma DroppedStep(w: World, e: Event, id: nat)
    requires Ok(w) && id < |w.log| && w.log[id].Inserted? && Tracked(w, id)
    ensures Step(w, e).log[id] == w.log[id] && Tracked(Step(w, e), id)
  {
    hide Ok, Step, Finished, TouchedKey;
    LogExtends(w, e);
    var key := w.log[id].key;
    if Finished(w.log, id) {
      FinishedExtends(w.log, LastEntry(w, e), id);
    } else {
      UnfinishedStep(w, e, key);
      if Ended(Step(w, e), key, id) {
        MarkFinishes(w, e, key);
      }
    }
  }

  /** An unfinished row stays in the table, and only a mark ends it. */
  lemma UnfinishedStep(w: World, e: Event, key: Key)
    requires key in w.rows && w.rows[key].status != Completed && w.rows[key].status != Dead
    ensures key in Step(w, e).rows && Step(w, e).rows[key].id == w.rows[key].id
    ensures Ended(Step(w, e), key, w.rows[key].id) ==> TouchedKey(w, e) == Some(key) && LastEntry(w, e).Marked?
  {
    if TouchedKey(w, e) == Some(key) {
      MarkTouchesProcessing(w, e, key);
    }
  }

  function LastEntry(w: World, e: Event): Entry {
    Step(w, e).log[|w.log|]
  }

  lemma MarkFinishes(w: World, e: Event, key: Key)
    requires Ok(w) && key in w.rows && TouchedKey(w, e) == Some(key)
    requires Ended(Step(w, e), key, w.rows[key].id)
    requires LastEntry(w, e).Marked?
    ensures Finished(Step(w, e).log, w.rows[key].id)
  {
    hide Ok;
    RowFacts(w, key);
    assert Finishes(Step(w, e).log, |w.log|, w.rows[key].id);
  }

  ghost predicate NeverMarked(events: seq<Event>, token: nat) {
    forall i :: 0 <= i < |events| ==> events[i] != Complete(token) && events[i] != Fail(token)
  }

  /**
   A crash during the last attempt: unless that very worker marks the row, it stays in the table
   for good, processing or (after a re-enqueue) pending, and is never claimed, completed or dead.
   */
  lemma {:induction false} LastAttemptCrashSticks(w: World, events: seq<Event>, key: Key)
    requires Ok(w) && key in w.rows
    requires w.rows[key].status == Processing && w.rows[key].attempts == w.rows[key].maxAttempts
    requires NeverMarked(events, w.rows[key].token.GetOr(0))
    ensures var w' := Exec(w, events);
            key in w'.rows
            && (w'.rows[key].status == Processing || w'.rows[key].status == Pending)
            && w'.rows[key].id == w.rows[key].id && w'.rows[key].token == w.rows[key].token
            && w'.rows[key].attempts == w'.rows[key].maxAttempts
  {
    hide Ok, RowOk, HeldBy, NoMark, NoClaim, NoRequeue;
    RowFacts(w, key);
    if events != [] {
      var n := |events| - 1;
      LastAttemptCrashSticks(w, events[..n], key);
      var w1 := Exec(w, events[..n]);
      ExecKeepsOk(w, events[..n]);
      RowFacts(w1, key);
      assert events[n] != Complete(w.rows[key].token.value) && events[n] != Fail(w.rows[key].token.value);
      if TouchedKey(w1, events[n]) == Some(key) {
        MarkTouchesProcessing(w1, events[n], key);
      }
    }
  }

  /** A run with `n` claims of one row: each but the last fails, and the next comes an hour later. */
  function Attempts(key: Key, n: nat): (events: seq<Event>)
    requires n >= 1
    ensures |events| == 3 * n - 1
  {
    if n == 1 then [Enqueue(key), Claim(key)]
    else Attempts(key, n - 1) + [Fail(3 * n - 5), Tick(MAX_BACKOFF_MS), Claim(key)]
  }

  /** The row of `key` is under its claim number `n`, which is the latest log entry. */
  ghost predicate UnderAttempt(w: World, key: Key, n: nat)
    requires n >= 1
  {
    && key in w.rows && |w.log| == 3 * n - 1
    && var row := w.rows[key];
       && row.status == Processing && row.attempts == n && row.maxAttempts == DEFAULT_MAX_ATTEMPTS
       && row.token == Some(3 * n - 2) && row.nextAttemptAt <= w.now
       && w.log[3 * n - 2] == Claimed(w.now, row.id, key, n, DEFAULT_MAX_ATTEMPTS)
  }

  lemma {:induction false} AttemptsRun(key: Key, n: nat)
    requires 1 <= n <= DEFAULT_MAX_ATTEMPTS
    ensures UnderAttempt(Exec(EMPTY, Attempts(key, n)), key, n)
  {
    hide Step, UnderAttempt, Exec;
    if n == 1 {
      FirstAttempt(key);
    } else {
      var before, w := Attempts(key, n - 1), Exec(EMPTY, Attempts(key, n - 1));
      AttemptsRun(key, n - 1);
      NextAttempt(w, key, n - 1);
      ExecThree(EMPTY, before, Fail(3 * n - 5), Tick(MAX_BACKOFF_MS), Claim(key));
    }
  }

  lemma FirstAttempt(key: Key)
    ensures UnderAttempt(Exec(EMPTY, Attempts(key, 1)), key, 1)
  {
    var w1 := Step(EMPTY, Enqueue(key));
    assert [Enqueue(key)][..0] == [];
    assert Exec(EMPTY, [Enqueue(key)]) == w1;
    assert Attempts(key, 1)[..1] == [Enqueue(key)];
    assert Claimable(w1.rows[key], w1.now);
    assert Exec(EMPTY, Attempts(key, 1)) == Step(w1, Claim(key));
  }

  lemma ExecThree(w: World, events: seq<Event>, a: Event, b: Event, c: Event)
    ensures Exec(w, events + [a, b, c]) == Step(Step(Step(Exec(w, events), a), b), c)
  {
    hide Step, Exec;
    ExtendTrace(w, events, a);
    ExtendTrace(w, events + [a], b);
    ExtendTrace(w, events + [a] + [b], c);
    assert events + [a] + [b] + [c] == events + [a, b, c];
  }

  lemma NextAttempt(w: World, key: Key, n: nat)
    requires 1 <= n < DEFAULT_MAX_ATTEMPTS && UnderAttempt(w, key, n)
    ensures UnderAttempt(Step(Step(Step(w, Fail(3 * n - 2)), Tick(MAX_BACKOFF_MS)), Claim(key)), key, n + 1)
  {
    hide Backoff;
    assert Backoff(n) <= MAX_BACKOFF_MS by {
      BackoffNeverCaps(n);
    }
    assert Holds(w, 3 * n - 2);
    var failed := Step(w, Fail(3 * n - 2));
    assert failed.rows[key] == FailedRow(w.rows[key], w.now, n, DEFAULT_MAX_ATTEMPTS);
    var later := Step(failed, Tick(MAX_BACKOFF_MS));
    assert Claimable(later.rows[key], later.now);
  }

  /**
   So not every row ends completed or dead: after seven failures and a crash in the eighth
   attempt, which makes no further mark, nothing that anybody does finishes the row.
   */
  lemma NotEveryRowEnds(key: Key, events: seq<Event>)
    requires NeverMarked(events, 3 * DEFAULT_MAX_ATTEMPTS - 2)
    ensures var w := Exec(EMPTY, Attempts(key, DEFAULT_MAX_ATTEMPTS) + events);
            key in w.rows && (w.rows[key].status == Processing || w.rows[key].status == Pending)
  {
    var before := Attempts(key, DEFAULT_MAX_ATTEMPTS);
    AttemptsRun(key, DEFAULT_MAX_ATTEMPTS);
    Reachable(before);
    hide Ok, Exec, Attempts;
    ExecConcat(EMPTY, before, events);
    LastAttemptCrashSticks(Exec(EMPTY, before), events, key);
  }

  // ---- Which rows can still end -----------------------------------------------------

  ghost predicate Ended(w: World, key: Key, id: nat) {
    key in w.rows && w.rows[key].id == id && (w.rows[key].status == Completed || w.rows[key].status == Dead)
  }

  /** Waiting for a claim that the attempt bound no longer allows. */
  predicate Stranded(row: Row) {
    row.status == Pending && row.attempts == row.maxAttempts
  }

  lemma StrandedStep(w: World, e: Event, key: Key)
    requires key in w.rows && Stranded(w.rows[key])
    ensures var w' := Step(w, e);
            key in w'.rows && w'.rows[key].id == w.rows[key].id && Stranded(w'.rows[key])
  {
    if TouchedKey(w, e) == Some(key) {
      MarkTouchesProcessing(w, e, key);
    }
  }

  lemma {:induction false} StrandedForever(w: World, events: seq<Event>, key: Key)
    requires key in w.rows && Stranded(w.rows[key])
    ensures var w' := Exec(w, events);
            key in w'.rows && w'.rows[key].id == w.rows[key].id && Stranded(w'.rows[key])
  {
    hide Step, Stranded;
    if events != [] {
      var n := |events| - 1;
      StrandedForever(w, events[..n], key);
      StrandedStep(Exec(w, events[..n]), events[n], key);
    }
  }

  /** The holder of a row in progress can complete it. */
  lemma HolderEnds(w: World, key: Key)
    requires Ok(w) && key in w.rows && w.rows[key].status == Processing
    ensures w.rows[key].token.Some? && Ended(Step(w, Complete(w.rows[key].token.value)), key, w.rows[key].id)
  {
    RowFacts(w, key);
    assert EntriesPlaced(w.log);
    hide Ok;
    assert w.log[w.rows[key].token.value].key == key;
    assert Holds(w, w.rows[key].token.value);
  }

  /** A row with attempts left can be claimed once its times have passed. */
  lemma WaitingRowIsClaimable(w: World, key: Key)
    requires key in w.rows && w.rows[key].attempts < w.rows[key].maxAttempts
    requires w.rows[key].status == Pending || w.rows[key].status == Failed
    ensures var ms := w.rows[key].nextAttemptAt + w.rows[key].lockedUntil.GetOr(0) + 1;
            var w' := Step(Step(w, Tick(ms)), Claim(key));
            key in w'.rows && w'.rows[key].id == w.rows[key].id && w'.rows[key].status == Processing
            && w'.rows[key].token == Some(|w.log| + 1)
  {
    var ms := w.rows[key].nextAttemptAt + w.rows[key].lockedUntil.GetOr(0) + 1;
    assert Claimable(w.rows[key], Step(w, Tick(ms)).now);
  }

  lemma UnstrandedCanEnd(w: World, key: Key)
    requires Ok(w) && key in w.rows && !Stranded(w.rows[key])
    ensures exists after :: Ended(Exec(w, after), key, w.rows[key].id)
  {
    hide Ok, Step;
    var row := w.rows[key];
    RowFacts(w, key);
    if row.status == Completed || row.status == Dead {
      assert Ended(Exec(w, []), key, row.id);
    } else if row.status == Processing {
      HolderEnds(w, key);
      ExtendTrace(w, [], Complete(row.token.value));
    } else {
      var ms := row.nextAttemptAt + row.lockedUntil.GetOr(0) + 1;
      WaitingRowIsClaimable(w, key);
      StepKeepsOk(w, Tick(ms));
      StepKeepsOk(Step(w, Tick(ms)), Claim(key));
      HolderEnds(Step(Step(w, Tick(ms)), Claim(key)), key);
      ExecThree(w, [], Tick(ms), Claim(key), Complete(|w.log| + 1));
    }
  }

  /**
   A row can still become completed or dead exactly when it is not pending with all its attempts
   used up.
   */
  lemma CanEndIff(before: seq<Event>, key: Key)
    requires key in Exec(EMPTY, before).rows
    ensures var w := Exec(EMPTY, before);
            (exists after :: Ended(Exec(w, after), key, w.rows[key].id)) <==> !Stranded(w.rows[key])
  {
    hide Exec, Step;
    var w := Exec(EMPTY, before);
    Reachable(before);
    if Stranded(w.rows[key]) {
      forall after ensures !Ended(Exec(w, after), key, w.rows[key].id) {
        StrandedForever(w, after, key);
      }
    } else {
      UnstrandedCanEnd(w, key);
    }
  }

  /** A re-enqueue strands a row exactly when its attempts are used up and it is not completed. */
  lemma RequeueStrandsIff(w: World, key: Key)
    requires Ok(w) && key in w.rows
    ensures key in Step(w, Enqueue(key)).rows
    ensures Stranded(Step(w, Enqueue(key)).rows[key])
            <==> w.rows[key].attempts == w.rows[key].maxAttempts && w.rows[key].status != Completed
  {}

  ghost predicate IsStranded(w: World, key: Key) {
    key in w.rows && Stranded(w.rows[key])
  }

  /** Eight claims of a row; `died` says whether the holder of the last one has failed it. */
  function LastAttempt(key: Key, died: bool): seq<Event> {
    Attempts(key, DEFAULT_MAX_ATTEMPTS) + if died then [Fail(3 * DEFAULT_MAX_ATTEMPTS - 2)] else []
  }

  lemma LastAttemptRow(key: Key, died: bool)
    ensures var w := Exec(EMPTY, LastAttempt(key, died));
            key in w.rows && w.rows[key].attempts == w.rows[key].maxAttempts
            && w.rows[key].status == if died then Dead else Processing
  {
    hide Exec, Attempts;
    var last := Attempts(key, DEFAULT_MAX_ATTEMPTS);
    AttemptsRun(key, DEFAULT_MAX_ATTEMPTS);
    if died {
      ExtendTrace(EMPTY, last, Fail(3 * DEFAULT_MAX_ATTEMPTS - 2));
      assert Holds(Exec(EMPTY, last), 3 * DEFAULT_MAX_ATTEMPTS - 2);
    } else {
      assert last + [] == last;
    }
  }

  /**
   Two such runs: the holder of the eighth attempt is still at work, or has failed it, when the
   row is re-enqueued. Whatever follows, the holder's own success included, the row stays pending.
   */
  lemma RequeueStrands(key: Key, died: bool, events: seq<Event>)
    ensures IsStranded(Exec(Exec(EMPTY, LastAttempt(key, died) + [Enqueue(key)]), events), key)
  {
    hide Ok, Exec, LastAttempt;
    var before := LastAttempt(key, died);
    LastAttemptRow(key, died);
    Reachable(before);
    RequeueStrandsIff(Exec(EMPTY, before), key);
    ExtendTrace(EMPTY, before, Enqueue(key));
    StrandedForever(Step(Exec(EMPTY, before), Enqueue(key)), events, key);
  }

  // ---- Backoff ----------------------------------------------------------------------

  lemma {:induction false} Pow2Monotone(a: nat, b: nat)
    requires a <= b
    ensures Pow2(a) <= Pow2(b)
  {
    if a < b {
      Pow2Monotone(a, b - 1);
    }
  }

  /** The one-hour cap is never reached: the longest delay is 1024 seconds, from attempt 11 on. */
  lemma BackoffNeverCaps(attempt: nat)
    requires attempt >= 1
    ensures Backoff(attempt) == 1000 * Pow2(Min(attempt - 1, 10)) <= 1_024_000 < MAX_BACKOFF_MS
    ensures Backoff(attempt) <= Backoff(attempt + 1)
  {
    assert Pow2(10) == 1024 by {
      assert Pow2(5) == 32;
    }
    Pow2Monotone(Min(attempt - 1, 10), 10);
    Pow2Monotone(Min(attempt - 1, 10), Min(attempt, 10));
  }

  /** A failed row that nobody re-enqueues is not claimed again before its backoff has passed. */
  lemma RetryWaitsForBackoff(events: seq<Event>, m: nat, j: nat)
    requires var log := Exec(EMPTY, events).log;
             m < j < |log| && log[m].Marked? && !log[m].ok && IsClaim(log[j], log[m].id)
             && forall k :: m < k < j ==> !IsRequeue(log[k], log[m].id) && !IsMark(log[k], log[m].id)
    ensures var log := Exec(EMPTY, events).log;
            log[m].token < m && log[log[m].token].Claimed?
            && log[j].at >= log[m].at + Backoff(log[log[m].token].attempt)
  {
    Reachable(events);
    assert NoRequeue(Exec(EMPTY, events).log, Exec(EMPTY, events).log[m].id, m, j);
  }
}

/**
 The code that drives the ledger: the database-backed operations, stale recovery with other
 clients running between its transactions, and the handle a turn holds on its reservation.
 */
module BudgetStore {
  import opened Common
  import opened BudgetLedger
  import Retention

  datatype Outcome<+T> = Returned(value: T) | Threw

  datatype Grant =
    | Granted(id: Id, spentCents: int, max: Num)
    | Denied(spentCents: int, max: Num)

  const DEFAULT_MAX_DAILY_USD := Finite(5.0)
  const DEFAULT_TURN_ESTIMATE_USD := Finite(0.01)

  function Answer(e: Entry): Outcome<bool> {
    match e
    case Settled(_, _, _, _) => Returned(true)
    case Freed(_, _, _) => Returned(true)
    case Refused => Returned(false)
    case _ => Threw
  }

  function BoundedLimit(limit: int): (n: nat)
    ensures 1 <= n <= 500 && (1 <= limit <= 500 ==> n == limit)
    ensures limit < 1 ==> n == 1
    ensures limit > 500 ==> n == 500
  {
    Max(1, Min(500, limit))
  }

  // ---- Stale recovery ---------------------------------------------------------------

  predicate Open(ledger: map<Id, Reservation>, id: Id) {
    id in ledger && ledger[id].status == Reserved
  }

  predicate Stale(ledger: map<Id, Reservation>, cutoff: nat, id: Id) {
    Open(ledger, id) && ledger[id].createdAt < cutoff
  }

  /** The answer of the recovery query: the oldest stale rows, at most `limit` of them. */
  ghost predicate StaleBatch(ledger: map<Id, Reservation>, cutoff: nat, limit: nat, rows: seq<Id>) {
    && |rows| <= limit
    && (forall i :: 0 <= i < |rows| ==> Stale(ledger, cutoff, rows[i]))
    && (forall i, j :: 0 <= i < j < |rows| ==> rows[i] != rows[j])
    && (forall i, j :: 0 <= i < j < |rows| ==> ledger[rows[i]].createdAt <= ledger[rows[j]].createdAt)
    && (forall id :: Stale(ledger, cutoff, id) && id !in rows ==>
          |rows| == limit && forall i :: 0 <= i < |rows| ==> ledger[rows[i]].createdAt <= ledger[id].createdAt)
  }

  /** One release transaction as its fate leaves it. */
  function ReleaseEvent(id: Id, at: nat, fate: Fate): Event {
    if fate == RollsBack then Abort else Release(id, at)
  }

  /** Recovery's transactions with the events of other clients in between. */
  ghost function Interleaved(rows: seq<Id>, at: nat, fates: seq<Fate>, others: seq<seq<Event>>): seq<Event>
    requires |rows| == |fates| == |others|
  {
    if rows == [] then []
    else
      var n := |rows| - 1;
      Interleaved(rows[..n], at, fates[..n], others[..n]) + others[n] + [ReleaseEvent(rows[n], at, fates[n])]
  }

  lemma InterleavedSnoc(rows: seq<Id>, at: nat, fates: seq<Fate>, others: seq<seq<Event>>)
    requires |rows| == |fates| == |others| > 0
    ensures var n := |rows| - 1;
            Interleaved(rows, at, fates, others)
            == Interleaved(rows[..n], at, fates[..n], others[..n]) + others[n] + [ReleaseEvent(rows[n], at, fates[n])]
  {}

  /** What a release answers its caller. */
  function ReleaseAnswer(w: World, id: Id, at: nat, fate: Fate): Outcome<bool> {
    var log := Step(w, BudgetLedger.Release(id, at)).log;
    if fate == Commits then Answer(log[|log| - 1]) else Threw
  }

  /** On balanced books only its own transaction makes it throw, and true means that it freed an open row. */
  lemma ReleaseAnswerIff(w: World, id: Id, at: nat, fate: Fate)
    requires Books(w)
    ensures ReleaseAnswer(w, id, at, fate) == Threw <==> fate != Commits
    ensures ReleaseAnswer(w, id, at, fate) == Returned(true) <==> fate == Commits && Open(w.tables.ledger, id)
  {
    if Open(w.tables.ledger, id) {
      OpenIsCovered(w, id);
    }
  }

  /** What the release of the last row answers in its turn. */
  ghost function LastAnswer(w: World, rows: seq<Id>, at: nat, fates: seq<Fate>, others: seq<seq<Event>>): Outcome<bool>
    requires |rows| == |fates| == |others| > 0
  {
    var n := |rows| - 1;
    var turn := Exec(Exec(w, Interleaved(rows[..n], at, fates[..n], others[..n])), others[n]);
    ReleaseAnswer(turn, rows[n], at, fates[n])
  }

  /** How many rows' own committed releases freed them. */
  ghost function ReleasedRows(w: World, rows: seq<Id>, at: nat, fates: seq<Fate>, others: seq<seq<Event>>): nat
    requires |rows| == |fates| == |others|
  {
    if rows == [] then 0
    else
      var n := |rows| - 1;
      ReleasedRows(w, rows[..n], at, fates[..n], others[..n])
      + if LastAnswer(w, rows, at, fates, others) == Returned(true) then 1 else 0
  }

  /** How many rows' releases threw. */
  ghost function FailedRows(w: World, rows: seq<Id>, at: nat, fates: seq<Fate>, others: seq<seq<Event>>): nat
    requires |rows| == |fates| == |others|
  {
    if rows == [] then 0
    else
      var n := |rows| - 1;
      FailedRows(w, rows[..n], at, fates[..n], others[..n])
      + if LastAnswer(w, rows, at, fates, others) == Threw then 1 else 0
  }

  function Unacknowledged(fates: seq<Fate>): nat {
    if fates == [] then 0
    else Unacknowledged(fates[..|fates| - 1]) + if fates[|fates| - 1] == Commits then 0 else 1
  }

  /** On balanced books a release throws only when its own transaction does, whoever interferes. */
  lemma {:induction false} OnlyFatesFail(w: World, rows: seq<Id>, at: nat, fates: seq<Fate>, others: seq<seq<Event>>)
    requires |rows| == |fates| == |others| && Books(w)
    ensures FailedRows(w, rows, at, fates, others) == Unacknowledged(fates)
  {
    if rows != [] {
      var n := |rows| - 1;
      OnlyFatesFail(w, rows[..n], at, fates[..n], others[..n]);
      var before := Exec(w, Interleaved(rows[..n], at, fates[..n], others[..n]));
      ExecKeepsBooks(w, Interleaved(rows[..n], at, fates[..n], others[..n]));
      ExecKeepsBooks(before, others[n]);
      ReleaseAnswerIff(Exec(before, others[n]), rows[n], at, fates[n]);
      hide Exec, Interleaved, ReleaseAnswer, Books;
    }
  }

  lemma {:induction false} AtMostOneCount(w: World, rows: seq<Id>, at: nat, fates: seq<Fate>, others: seq<seq<Event>>)
    requires |rows| == |fates| == |others|
    ensures ReleasedRows(w, rows, at, fates, others) + FailedRows(w, rows, at, fates, others) <= |rows|
  {
    hide Exec, Interleaved, LastAnswer;
    if rows != [] {
      var n := |rows| - 1;
      AtMostOneCount(w, rows[..n], at, fates[..n], others[..n]);
    }
  }

  ghost predicate NeverReserves(events: seq<Event>, id: Id) {
    forall i :: 0 <= i < |events| && events[i].Reserve? ==> events[i].id != id
  }

  lemma {:induction false} ResolvedStaysResolved(w: World, events: seq<Event>, id: Id)
    requires !Open(w.tables.ledger, id) && NeverReserves(events, id)
    ensures !Open(Exec(w, events).tables.ledger, id)
  {
    if events != [] {
      ResolvedStaysResolved(w, events[..|events| - 1], id);
    }
  }

  /** Deleting expired rows is a purge of exactly those rows. */
  lemma DeletedIsPurged(t: Tables, rest: map<Id, Reservation>, cutoff: nat)
    requires rest.Keys <= t.ledger.Keys && forall id :: id in rest ==> rest[id] == t.ledger[id]
    requires forall id :: id in t.ledger && id !in rest ==> Expired(t.ledger[id], cutoff)
    ensures PurgeTx(t, cutoff, t.ledger.Keys - rest.Keys) == Tables(t.spend, rest)
    ensures |t.ledger.Keys - rest.Keys| == |t.ledger| - |rest|
  {
    hide Expired;
    assert t.ledger.Keys == rest.Keys + (t.ledger.Keys - rest.Keys);
  }

  /** The world and the counts after the first `i` rows of a recovery. */
  ghost function SoFar(w: World, rows: seq<Id>, at: nat, fates: seq<Fate>, others: seq<seq<Event>>, i: nat)
    : (World, nat, nat)
    requires i <= |rows| == |fates| == |others|
  {
    (Exec(w, Interleaved(rows[..i], at, fates[..i], others[..i])),
     ReleasedRows(w, rows[..i], at, fates[..i], others[..i]),
     FailedRows(w, rows[..i], at, fates[..i], others[..i]))
  }

  lemma SoFarNothing(w: World, rows: seq<Id>, at: nat, fates: seq<Fate>, others: seq<seq<Event>>)
    requires |rows| == |fates| == |others|
    ensures SoFar(w, rows, at, fates, others, 0) == (w, 0, 0)
  {}

  lemma SoFarNext(w: World, rows: seq<Id>, at: nat, fates: seq<Fate>, others: seq<seq<Event>>, i: nat)
    requires i < |rows| == |fates| == |others|
    ensures var (w', released, failed) := SoFar(w, rows, at, fates, others, i);
            var turn := Exec(w', others[i]);
            var answer := ReleaseAnswer(turn, rows[i], at, fates[i]);
            SoFar(w, rows, at, fates, others, i + 1)
            == (Step(turn, ReleaseEvent(rows[i], at, fates[i])),
                released + (if answer == Returned(true) then 1 else 0), failed + (if answer == Threw then 1 else 0))
  {
    hide Step, Exec, Interleaved, ReleaseEvent, ReleaseAnswer;
    assert rows[..i + 1][..i] == rows[..i] && fates[..i + 1][..i] == fates[..i] && others[..i + 1][..i] == others[..i];
    InterleavedSnoc(rows[..i + 1], at, fates[..i + 1], others[..i + 1]);
    ExtendTrace(w, Interleaved(rows[..i], at, fates[..i], others[..i]), others[i], ReleaseEvent(rows[i], at, fates[i]));
  }

  lemma SoFarAll(w: World, rows: seq<Id>, at: nat, fates: seq<Fate>, others: seq<seq<Event>>)
    requires |rows| == |fates| == |others|
    ensures SoFar(w, rows, at, fates, others, |rows|)
         == (Exec(w, Interleaved(rows, at, fates, others)), ReleasedRows(w, rows, at, fates, others),
             FailedRows(w, rows, at, fates, others))
  {
    assert rows[..|rows|] == rows && fates[..|rows|] == fates && others[..|rows|] == others;
  }

  lemma BatchIsBounded(ledger: map<Id, Reservation>, cutoff: nat, limit: int, rows: seq<Id>)
    requires StaleBatch(ledger, cutoff, BoundedLimit(limit), rows)
    ensures |rows| <= 500
  {}

  /** What a whole recovery comes to. */
  lemma RecoveryEnds(w: World, rows: seq<Id>, cutoff: nat, limit: nat, at: nat, fates: seq<Fate>,
                     others: seq<seq<Event>>)
    requires |rows| == |fates| == |others| && StaleBatch(w.tables.ledger, cutoff, limit, rows)
    ensures ReleasedRows(w, rows, at, fates, others) + FailedRows(w, rows, at, fates, others) <= |rows|
    ensures Books(w) ==> FailedRows(w, rows, at, fates, others) == Unacknowledged(fates)
    ensures Books(w) && Quiet(others)
            ==> ReleasedRows(w, rows, at, fates, others) + FailedRows(w, rows, at, fates, others) == |rows|
    ensures Books(w) && Undisturbed(rows, others) ==>
              var ledger := Exec(w, Interleaved(rows, at, fates, others)).tables.ledger;
              forall i :: 0 <= i < |rows| && fates[i] != RollsBack ==> !Open(ledger, rows[i])
  {
    hide Exec, Interleaved, ReleasedRows, FailedRows, Books, Quiet;
    AtMostOneCount(w, rows, at, fates, others);
    if Books(w) {
      OnlyFatesFail(w, rows, at, fates, others);
      if Undisturbed(rows, others) {
        InterleavedCloses(w, rows, at, fates, others);
      }
      if Quiet(others) {
        QuietRowsCount(w, rows, at, fates, others, |rows|);
        assert rows[..|rows|] == rows && fates[..|rows|] == fates && others[..|rows|] == others;
      }
    }
  }

  class Store {
    var spend: map<Account, int>
    var ledger: map<Id, Reservation>
    ghost var log: seq<Entry>

    ghost function View(): World
      reads this
    {
      World(Tables(spend, ledger), log)
    }

    constructor ()
      ensures View() == EMPTY
    {
      spend, ledger, log := map[], map[], [];
    }

    method TryReserve(id: Id, account: Account, estimate: Num, cap: Num, at: nat) returns (g: Grant)
      requires id !in ledger  // a random id
      modifies this
      ensures View() == Step(old(View()), Reserve(id, account, estimate, cap, at))
      ensures g.Granted? <==> Opens(log[|log| - 1], id)
      ensures g.spentCents == Counter(Tables(spend, ledger), account)
      ensures g.Granted? ==> g.id == id
      ensures g.max == if CeilCents(estimate).None? || CeilCents(cap).None? then DEFAULT_MAX_DAILY_USD else cap
    {
      var est, capCents := CeilCents(estimate), CeilCents(cap);
      if est.None? || capCents.None? {
        log := log + [NotFinite];
        return Denied(if account in spend then spend[account] else 0, DEFAULT_MAX_DAILY_USD);
      }
      if est.value > capCents.value {
        log := log + [Refused];
        return Denied(if account in spend then spend[account] else 0, cap);
      }
      // INSERT ... ON CONFLICT DO UPDATE ... WHERE: the guard applies to the update only
      if account in spend {
        if spend[account] + est.value > capCents.value {
          log := log + [Refused];
          return Denied(spend[account], cap);
        }
        spend := spend[account := spend[account] + est.value];
      } else {
        spend := spend[account := est.value];
      }
      ledger := ledger[id := Reservation(account, est.value, None, Reserved, at, None)];
      log := log + [Opened(id, account, est.value)];
      g := Granted(id, spend[account], cap);
    }

    method Reconcile(id: Id, observed: Num, at: nat) returns (r: Outcome<bool>)
      modifies this
      ensures View() == Step(old(View()), BudgetLedger.Reconcile(id, observed, at))
      ensures r == Answer(log[|log| - 1])
    {
      if !observed.Finite? {
        log := log + [NotFinite];
        return Threw;
      }
      var actual := RoundCents(observed.r);
      if id !in ledger || ledger[id].status != Reserved {
        log := log + [Refused];
        return Returned(false);
      }
      var row := ledger[id];
      var delta := actual - row.reserved;
      if delta != 0 {
        if row.account !in spend {
          log := log + [CounterMissing];
          return Threw;
        }
        spend := spend[row.account := Max(0, spend[row.account] + delta)];
      }
      ledger := ledger[id := row.(actual := Some(actual), status := Reconciled, resolvedAt := Some(at))];
      log := log + [Settled(id, row.account, row.reserved, actual)];
      r := Returned(true);
    }

    method Release(id: Id, at: nat) returns (r: Outcome<bool>)
      modifies this
      ensures View() == Step(old(View()), BudgetLedger.Release(id, at))
      ensures r == Answer(log[|log| - 1])
    {
      if id !in ledger || ledger[id].status != Reserved {
        log := log + [Refused];
        return Returned(false);
      }
      var row := ledger[id];
      if row.account !in spend {
        log := log + [CounterMissing];
        return Threw;
      }
      spend := spend[row.account := Max(0, spend[row.account] - row.reserved)];
      ledger := ledger[id := row.(actual := Some(0), status := Released, resolvedAt := Some(at))];
      log := log + [Freed(id, row.account, row.reserved)];
      r := Returned(true);
    }

    /** A reconciliation whose transaction has the given fate. */
    method AttemptReconcile(id: Id, observed: Num, at: nat, fate: Fate) returns (r: Outcome<bool>)
      modifies this
      ensures View() == Step(old(View()), if fate == RollsBack then Abort else BudgetLedger.Reconcile(id, observed, at))
      ensures r == if fate == Commits then Answer(log[|log| - 1]) else Threw
    {
      if fate == RollsBack {
        log := log + [Refused];
        return Threw;
      }
      r := Reconcile(id, observed, at);
      if fate == AckLost {
        r := Threw;
      }
    }

    /** A release whose transaction has the given fate. */
    method AttemptRelease(id: Id, at: nat, fate: Fate) returns (r: Outcome<bool>)
      modifies this
      ensures View() == Step(old(View()), ReleaseEvent(id, at, fate))
      ensures r == ReleaseAnswer(old(View()), id, at, fate)
    {
      if fate == RollsBack {
        log := log + [Refused];
        return Threw;
      }
      r := Release(id, at);
      if fate == AckLost {
        r := Threw;
      }
    }

    /** One retention pass over the ledger: only resolved rows past the cutoff can go. */
    method PurgeResolved(cutoff: nat) returns (deleted: nat, ghost batch: set<Id>)
      modifies this
      ensures View() == Step(old(View()), Purge(cutoff, batch))
      ensures deleted == |batch| <= Retention.BATCH_SIZE
      ensures forall id :: id in batch ==> id in old(ledger) && Expired(old(ledger)[id], cutoff)
      ensures deleted < Retention.BATCH_SIZE ==> forall id :: id in ledger ==> !Expired(ledger[id], cutoff)
    {
      var rest;
      rest, deleted := Retention.DeleteBatchedWhere(
        ledger, (row: Reservation) => Expired(row, cutoff), Retention.BATCH_SIZE, Retention.MAX_BATCHES_PER_TABLE);
      batch := ledger.Keys - rest.Keys;
      DeletedIsPurged(Tables(spend, ledger), rest, cutoff);
      hide PurgeTx;
      ledger, log := rest, log + [Refused];
    }

    /** Transactions of other clients. */
    method Others(events: seq<Event>)
      modifies this
      ensures View() == Exec(old(View()), events)
    {
      for i := 0 to |events|
        invariant View() == Exec(old(View()), events[..i])
      {
        assert events[..i + 1][..i] == events[..i];
        var (tables, entry) := Tx(Tables(spend, ledger), events[i], true);
        spend, ledger, log := tables.spend, tables.ledger, log + [entry];
      }
      assert events[..|events|] == events;
    }

    /**
     Releases a batch of stale reservations one transaction at a time; a failing one is counted
     and skipped. Whatever other clients do in between, a scanned reservation is closed
     afterwards unless its own transaction rolled back.
     */
    method RecoverStale(rows: seq<Id>, cutoff: nat, limit: int, at: nat, fates: seq<Fate>, others: seq<seq<Event>>)
      returns (scanned: nat, released: nat, failed: nat)
      requires StaleBatch(ledger, cutoff, BoundedLimit(limit), rows)
      requires |rows| == |fates| == |others|
      modifies this
      ensures View() == Exec(old(View()), Interleaved(rows, at, fates, others))
      ensures scanned == |rows| <= 500
      ensures released == ReleasedRows(old(View()), rows, at, fates, others)
      ensures failed == FailedRows(old(View()), rows, at, fates, others)
      ensures released + failed <= scanned
      ensures Books(old(View())) ==> failed == Unacknowledged(fates)
      ensures Books(old(View())) && Undisturbed(rows, others)
              ==> forall i :: 0 <= i < |rows| && fates[i] != RollsBack ==> !Open(ledger, rows[i])
      ensures Books(old(View())) && Quiet(others) ==> released + failed == scanned
    {
      hide Exec, Step, StepWith, Tx, Books, StaleBatch, Interleaved, Open, Undisturbed, Quiet, ReleaseEvent,
           ReleaseAnswer, SoFar, ReleasedRows, FailedRows, Unacknowledged;
      ghost var w := View();
      SoFarNothing(w, rows, at, fates, others);
      released, failed := 0, 0;
      for i := 0 to |rows|
        invariant (View(), released, failed) == SoFar(w, rows, at, fates, others, i)
      {
        SoFarNext(w, rows, at, fates, others, i);
        Others(others[i]);
        var r := AttemptRelease(rows[i], at, fates[i]);
        match r {
          case Returned(value) => released := released + if value then 1 else 0;
          case Threw => failed := failed + 1;
        }
      }
      BatchIsBounded(w.tables.ledger, cutoff, limit, rows);
      scanned := |rows|;
      SoFarAll(w, rows, at, fates, others);
      RecoveryEnds(w, rows, cutoff, BoundedLimit(limit), at, fates, others);
    }
  }

  /** No other client opens a reservation under an id of the batch. */
  ghost predicate Undisturbed(rows: seq<Id>, others: seq<seq<Event>>) {
    forall i, j :: 0 <= i < |rows| && 0 <= j < |others| ==> NeverReserves(others[j], rows[i])
  }

  ghost predicate Quiet(others: seq<seq<Event>>) {
    forall j :: 0 <= j < |others| ==> others[j] == []
  }

  lemma ExtendTrace(w: World, done: seq<Event>, others: seq<Event>, last: Event)
    ensures Exec(w, done + others + [last]) == Step(Exec(Exec(w, done), others), last)
  {
    ExecConcat(w, done, others);
    assert (done + others + [last])[..|done + others|] == done + others;
  }

  /** Every row of the batch is closed at the end unless its own transaction rolled back. */
  lemma {:induction false} InterleavedCloses(w: World, rows: seq<Id>, at: nat, fates: seq<Fate>,
                                             others: seq<seq<Event>>)
    requires |rows| == |fates| == |others|
    requires Books(w) && Undisturbed(rows, others)
    ensures var w' := Exec(w, Interleaved(rows, at, fates, others));
            Books(w') && forall i :: 0 <= i < |rows| && fates[i] != RollsBack ==> !Open(w'.tables.ledger, rows[i])
  {
    if rows != [] {
      var n := |rows| - 1;
      var done := Interleaved(rows[..n], at, fates[..n], others[..n]);
      var last := ReleaseEvent(rows[n], at, fates[n]);
      InterleavedCloses(w, rows[..n], at, fates[..n], others[..n]);
      ExtendTrace(w, done, others[n], last);
      ExecKeepsBooks(Exec(w, done), others[n]);
      StepKeepsBooks(Exec(Exec(w, done), others[n]), last, true);
      forall i | 0 <= i < n && fates[i] != RollsBack
        ensures !Open(Exec(Exec(w, done), others[n]).tables.ledger, rows[i])
      {
        assert rows[..n][i] == rows[i];
        ResolvedStaysResolved(Exec(w, done), others[n], rows[i]);
      }
    }
  }

  lemma ReleaseLeavesOthers(w: World, id: Id, at: nat, fate: Fate, other: Id)
    requires Open(w.tables.ledger, other) && other != id
    ensures Open(Step(w, ReleaseEvent(id, at, fate)).tables.ledger, other)
  {}

  /** With nobody else running, the rows still to come are open when their turn comes. */
  lemma {:induction false} QuietRowsStayOpen(w: World, rows: seq<Id>, at: nat, fates: seq<Fate>,
                                             others: seq<seq<Event>>, i: nat)
    requires |rows| == |fates| == |others| && i <= |rows|
    requires Books(w) && Quiet(others)
    requires forall j :: 0 <= j < |rows| ==> Open(w.tables.ledger, rows[j])
    requires forall j, k :: 0 <= j < k < |rows| ==> rows[j] != rows[k]
    ensures var w' := Exec(w, Interleaved(rows[..i], at, fates[..i], others[..i]));
            Books(w') && forall j :: i <= j < |rows| ==> Open(w'.tables.ledger, rows[j])
    ensures i < |rows| ==>
              var w' := Exec(Exec(w, Interleaved(rows[..i], at, fates[..i], others[..i])), others[i]);
              Books(w') && Open(w'.tables.ledger, rows[i])
              && ReleaseAnswer(w', rows[i], at, fates[i]) == (if fates[i] == Commits then Returned(true) else Threw)
    decreases i
  {
    hide StepWith, Books, Open, ReleaseEvent, ReleaseAnswer;
    if i > 0 {
      var n := i - 1;
      QuietRowsStayOpen(w, rows, at, fates, others, n);
      assert rows[..i][..n] == rows[..n] && fates[..i][..n] == fates[..n] && others[..i][..n] == others[..n];
      var done := Interleaved(rows[..n], at, fates[..n], others[..n]);
      var before := Exec(Exec(w, done), others[n]);
      ExtendTrace(w, done, others[n], ReleaseEvent(rows[n], at, fates[n]));
      StepKeepsBooks(before, ReleaseEvent(rows[n], at, fates[n]), true);
      forall j | i <= j < |rows|
        ensures Open(Step(before, ReleaseEvent(rows[n], at, fates[n])).tables.ledger, rows[j])
      {
        ReleaseLeavesOthers(before, rows[n], at, fates[n], rows[j]);
      }
    }
    if i < |rows| {
      var sofar := Interleaved(rows[..i], at, fates[..i], others[..i]);
      ReleaseAnswerIff(Exec(Exec(w, sofar), others[i]), rows[i], at, fates[i]);
    }
  }

  lemma {:induction false} QuietRowsCount(w: World, rows: seq<Id>, at: nat, fates: seq<Fate>,
                                          others: seq<seq<Event>>, i: nat)
    requires |rows| == |fates| == |others| && i <= |rows|
    requires Books(w) && Quiet(others)
    requires forall j :: 0 <= j < |rows| ==> Open(w.tables.ledger, rows[j])
    requires forall j, k :: 0 <= j < k < |rows| ==> rows[j] != rows[k]
    ensures ReleasedRows(w, rows[..i], at, fates[..i], others[..i])
            + FailedRows(w, rows[..i], at, fates[..i], others[..i]) == i
    decreases i
  {
    if i == 0 {
      SoFarNothing(w, rows, at, fates, others);
    } else {
      QuietRowsCount(w, rows, at, fates, others, i - 1);
      QuietRowsStayOpen(w, rows, at, fates, others, i - 1);
      SoFarNext(w, rows, at, fates, others, i - 1);
      hide Exec, Interleaved, ReleaseAnswer, ReleasedRows, FailedRows;
    }
  }

  // ---- The turn's handle ------------------------------------------------------------

  datatype HandleCall =
    | Observe(observed: Num, at: nat, fate: Fate)
    | LetGo(at: nat, fate: Fate)

  datatype HandleEvent = Mine(call: HandleCall) | Theirs(event: Event)

  datatype Turn = Turn(world: World, released: bool)

  /** The transaction a handle call sends, as its fate leaves it. */
  function Sent(id: Id, call: HandleCall): Event {
    if call.fate == RollsBack then Abort
    else if call.Observe? then BudgetLedger.Reconcile(id, call.observed, call.at)
    else BudgetLedger.Release(id, call.at)
  }

  /** The events one handle event adds to the run: a handle that is released sends nothing. */
  function Emitted(t: Turn, id: Id, h: HandleEvent): seq<Event> {
    match h
    case Theirs(e) => [e]
    case Mine(call) => if t.released then [] else [Sent(id, call)]
  }

  function HandleStep(t: Turn, id: Id, h: HandleEvent): Turn {
    match h
    case Theirs(e) => t.(world := Step(t.world, e))
    case Mine(call) =>
      if t.released then t
      else
        var w := Step(t.world, Sent(id, call));
        Turn(w, call.fate == Commits && Answer(w.log[|w.log| - 1]).Returned?)
  }

  function HandleExec(t: Turn, id: Id, hs: seq<HandleEvent>): Turn {
    if hs == [] then t
    else HandleStep(HandleExec(t, id, hs[..|hs| - 1]), id, hs[|hs| - 1])
  }

  function HandleTrace(t: Turn, id: Id, hs: seq<HandleEvent>): seq<Event> {
    if hs == [] then []
    else
      var n := |hs| - 1;
      HandleTrace(t, id, hs[..n]) + Emitted(HandleExec(t, id, hs[..n]), id, hs[n])
  }

  lemma {:induction false} HandleRunsTrace(t: Turn, id: Id, hs: seq<HandleEvent>)
    ensures HandleExec(t, id, hs).world == Exec(t.world, HandleTrace(t, id, hs))
  {
    if hs != [] {
      var n := |hs| - 1;
      HandleRunsTrace(t, id, hs[..n]);
      var emitted := Emitted(HandleExec(t, id, hs[..n]), id, hs[n]);
      ExecConcat(t.world, HandleTrace(t, id, hs[..n]), emitted);
      if emitted != [] {
        assert emitted[..0] == [];
        assert Exec(HandleExec(t, id, hs[..n]).world, emitted)
            == Step(Exec(HandleExec(t, id, hs[..n]).world, []), emitted[0]);
      }
    }
  }

  lemma {:induction false} ReleasedIsResolved(t: Turn, id: Id, hs: seq<HandleEvent>)
    requires Books(t.world) && !t.released
    requires NeverReserves(HandleTrace(t, id, hs), id)
    ensures Books(HandleExec(t, id, hs).world)
    ensures HandleExec(t, id, hs).released ==> !Open(HandleExec(t, id, hs).world.tables.ledger, id)
  {
    if hs != [] {
      var n := |hs| - 1;
      var t', emitted := HandleExec(t, id, hs[..n]), Emitted(HandleExec(t, id, hs[..n]), id, hs[n]);
      var trace := HandleTrace(t, id, hs[..n]);
      assert HandleTrace(t, id, hs) == trace + emitted;
      forall i | 0 <= i < |trace| && trace[i].Reserve? ensures trace[i].id != id {
        assert HandleTrace(t, id, hs)[i] == trace[i];
      }
      ReleasedIsResolved(t, id, hs[..n]);
      if emitted != [] {
        assert HandleTrace(t, id, hs)[|trace|] == emitted[0];
        StepKeepsBooks(t'.world, emitted[0], true);
      }
    }
  }

  /**
   A call releases the handle exactly when it is acknowledged and its transaction does not throw,
   which only a cost that is not finite does; a released handle sends nothing.
   */
  lemma CallReleasesIff(t: Turn, id: Id, call: HandleCall)
    requires Books(t.world)
    ensures HandleStep(t, id, Mine(call)).released
            <==> t.released || (call.fate == Commits && (call.Observe? ==> call.observed.Finite?))
    ensures t.released ==> HandleStep(t, id, Mine(call)) == t
  {
    StepKeepsBooks(t.world, Sent(id, call), true);
    if Open(t.world.tables.ledger, id) {
      OpenIsCovered(t.world, id);
    }
  }

  /** A reconciliation answers true exactly when it settles an open row, and throws only on an infinite cost or NaN. */
  lemma ReconcileAnswerIff(w: World, id: Id, observed: Num, at: nat)
    requires Books(w)
    ensures var log := Step(w, BudgetLedger.Reconcile(id, observed, at)).log;
            && (Answer(log[|log| - 1]) == Threw <==> !observed.Finite?)
            && (Answer(log[|log| - 1]) == Returned(true) <==> observed.Finite? && Open(w.tables.ledger, id))
  {
    if Open(w.tables.ledger, id) {
      OpenIsCovered(w, id);
    }
  }

  /**
   A handle over a granted reservation, with any mix of its own calls (repeated, failing, or
   committed without an acknowledgement) and of other clients' transactions: the reservation's
   net effect on the counter is none, actual - reserved or -reserved, and once the handle says
   `released` exactly one resolution has happened.
   */
  lemma HandleSettlesOnce(events: seq<Event>, id: Id, hs: seq<HandleEvent>)
    requires id in Exec(EMPTY, events).tables.ledger
    requires FreshIds(events + HandleTrace(Turn(Exec(EMPTY, events), false), id, hs))
    ensures var t := HandleExec(Turn(Exec(EMPTY, events), false), id, hs);
            var log := t.world.log;
            && (|| (Effect(log, id) == 0 && forall i :: 0 <= i < |log| ==> !Resolves(log[i], id))
                || (exists i :: 0 <= i < |log| && TheResolution(log, id, i)
                                && Opened(id, log[i].account, log[i].reserved) in log[..i]))
            && (t.released ==> Resolutions(log, id) == 1)
            && EffectShows(t.world, id)
  {
    var w := Exec(EMPTY, events);
    var t := Turn(w, false);
    var trace := HandleTrace(t, id, hs);
    EmptyBooks();
    ExecKeepsBooks(EMPTY, events);
    HandleRunsTrace(t, id, hs);
    ExecConcat(EMPTY, events, trace);
    ExactlyOnce(events + trace, id);
    ExecAccounts(events + trace, id);
    forall i, j | 0 <= i < j < |events| && events[i].Reserve? && events[j].Reserve?
      ensures events[i].id != events[j].id
    {
      assert (events + trace)[i] == events[i] && (events + trace)[j] == events[j];
    }
    ExecAccounts(events, id);
    OpeningNeedsReserve(events, id);
    var r :| 0 <= r < |events| && events[r].Reserve? && events[r].id == id;
    forall i | 0 <= i < |trace| && trace[i].Reserve? ensures trace[i].id != id {
      assert (events + trace)[|events| + i] == trace[i] && (events + trace)[r] == events[r];
    }
    ReleasedIsResolved(t, id, hs);
    OpeningsGrow(w, trace, id);
  }

  lemma {:induction false} OpeningsGrow(w: World, events: seq<Event>, id: Id)
    ensures Openings(Exec(w, events).log, id) >= Openings(w.log, id)
  {
    if events != [] {
      OpeningsGrow(w, events[..|events| - 1], id);
      var w' := Exec(w, events);
      assert w'.log[..|w'.log| - 1] == Exec(w, events[..|events| - 1]).log;
    }
  }

  class Handle {
    const store: Store
    const id: Id
    const reservedUsd: Num
    const spentCents: int
    const max: Num
    var released: bool

    ghost function View(): Turn
      reads this, store
    {
      Turn(store.View(), released)
    }

    constructor (store: Store, id: Id, reservedUsd: Num, spentCents: int, max: Num)
      ensures this.store == store && this.id == id && !released
      ensures this.reservedUsd == reservedUsd && this.spentCents == spentCents && this.max == max
    {
      this.store, this.id, released := store, id, false;
      this.reservedUsd, this.spentCents, this.max := reservedUsd, spentCents, max;
    }

    /** Settles the reservation; on a failure the handle stays open for a later call. */
    method Reconcile(observed: Num, at: nat, fate: Fate)
      modifies this, store
      ensures View() == HandleStep(old(View()), id, Mine(Observe(observed, at, fate)))
    {
      if released {
        return;
      }
      var r := store.AttemptReconcile(id, observed, at, fate);
      if r.Returned? {
        released := true;
      }
    }

    method Release(at: nat, fate: Fate)
      modifies this, store
      ensures View() == HandleStep(old(View()), id, Mine(LetGo(at, fate)))
    {
      if released {
        return;
      }
      var r := store.AttemptRelease(id, at, fate);
      if r.Returned? {
        released := true;
      }
    }
  }

  datatype Turned = Holding(handle: Handle) | BudgetExceeded(spentCents: int, max: Num)

  /** `reserveTurnBudget`: a handle on a granted reservation, or the budget error with its numbers. */
  method ReserveTurnBudget(store: Store, id: Id, account: Account, estimate: Option<Num>, cap: Num, at: nat)
    returns (r: Turned)
    requires id !in store.ledger
    modifies store
    ensures var usd := estimate.GetOr(DEFAULT_TURN_ESTIMATE_USD);
            store.View() == Step(old(store.View()), Reserve(id, account, usd, cap, at))
    ensures r.Holding? <==> Opens(store.log[|store.log| - 1], id)
    ensures match r
            case Holding(h) =>
              && fresh(h) && h.store == store && h.id == id && !h.released
              && h.reservedUsd == estimate.GetOr(DEFAULT_TURN_ESTIMATE_USD) && h.max == cap
              && h.spentCents == Counter(Tables(store.spend, store.ledger), account)
            case BudgetExceeded(spent, max) =>
              && spent == Counter(Tables(store.spend, store.ledger), account)
              && max == if store.log[|store.log| - 1] == NotFinite then DEFAULT_MAX_DAILY_USD else cap
  {
    var usd := estimate.GetOr(DEFAULT_TURN_ESTIMATE_USD);
    var g := store.TryReserve(id, account, usd, cap, at);
    if g.Denied? {
      return BudgetExceeded(g.spentCents, g.max);
    }
    var handle := new Handle(store, g.id, usd, g.spentCents, g.max);
    r := Holding(handle);
  }
}

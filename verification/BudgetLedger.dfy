/**
 The AI budget ledger as a concurrent protocol over two tables: one running counter per
 (user, day) and one row per reservation. Every database transaction is one atomic step;
 a run is any interleaving of steps by any number of clients. Each step appends to a log
 what its transaction did, so that statements about whole runs can be made about the log.
 */
module BudgetLedger {
  import opened Common
  import MapSum

  type Id = nat

  datatype Account = Account(user: string, day: string)

  datatype Status = Reserved | Reconciled | Released

  datatype Reservation = Reservation(
    account: Account, reserved: nat, actual: Option<nat>, status: Status,
    createdAt: nat, resolvedAt: Option<nat>)

  datatype Tables = Tables(spend: map<Account, int>, ledger: map<Id, Reservation>)

  /** What one transaction did. `Refused` covers every call that returns without effect. */
  datatype Entry =
    | Opened(id: Id, account: Account, reserved: nat)
    | Settled(id: Id, account: Account, reserved: nat, actual: nat)
    | Freed(id: Id, account: Account, reserved: nat)
    | Refused
    | NotFinite
    | CounterMissing

  datatype World = World(tables: Tables, log: seq<Entry>)

  datatype Event =
    | Reserve(id: Id, account: Account, estimate: Num, cap: Num, at: nat)
    | Reconcile(id: Id, observed: Num, at: nat)
    | Release(id: Id, at: nat)
    | Purge(cutoff: nat, batch: set<Id>)
    | Abort  // any transaction that rolls back

  const EMPTY := World(Tables(map[], map[]), [])

  // ---- The transactions -------------------------------------------------------------

  /** `Math.max(0, Math.ceil(usd * 100))`, or None when that is not finite. */
  function CeilCents(usd: Num): Option<nat> {
    match usd
    case NaN => None
    case PosInf => None
    case NegInf => Some(0)
    case Finite(r) => Some(Max(0, Ceil(r * 100.0)))
  }

  /** `Math.max(0, Math.round(usd * 100))` */
  function RoundCents(r: real): nat {
    Max(0, Round(r * 100.0))
  }

  /** The counter update; `clamp` is the `GREATEST(0, ...)` around it. */
  function Charge(total: int, delta: int, clamp: bool): int {
    if clamp then Max(0, total + delta) else total + delta
  }

  function ReserveTx(t: Tables, id: Id, account: Account, estimate: nat, cap: nat, at: nat): (Tables, Entry) {
    if estimate > cap || id in t.ledger then
      (t, Refused)
    else if account in t.spend && t.spend[account] + estimate > cap then
      (t, Refused)
    else
      var total := if account in t.spend then t.spend[account] + estimate else estimate;
      var row := Reservation(account, estimate, None, Reserved, at, None);
      (Tables(t.spend[account := total], t.ledger[id := row]), Opened(id, account, estimate))
  }

  function ReconcileTx(t: Tables, id: Id, actual: nat, at: nat, clamp: bool): (Tables, Entry) {
    if id !in t.ledger || t.ledger[id].status != Reserved then
      (t, Refused)
    else
      var row := t.ledger[id];
      var delta := actual - row.reserved;
      if delta != 0 && row.account !in t.spend then
        (t, CounterMissing)
      else
        var spend := if delta == 0 then t.spend
                     else t.spend[row.account := Charge(t.spend[row.account], delta, clamp)];
        var resolved := row.(actual := Some(actual), status := Reconciled, resolvedAt := Some(at));
        (Tables(spend, t.ledger[id := resolved]), Settled(id, row.account, row.reserved, actual))
  }

  function ReleaseTx(t: Tables, id: Id, at: nat, clamp: bool): (Tables, Entry) {
    if id !in t.ledger || t.ledger[id].status != Reserved then
      (t, Refused)
    else
      var row := t.ledger[id];
      if row.account !in t.spend then
        (t, CounterMissing)
      else
        var spend := t.spend[row.account := Charge(t.spend[row.account], 0 - row.reserved, clamp)];
        var resolved := row.(actual := Some(0), status := Released, resolvedAt := Some(at));
        (Tables(spend, t.ledger[id := resolved]), Freed(id, row.account, row.reserved))
  }

  /** The retention predicate on the ledger: resolved rows older than the cutoff. */
  predicate Expired(row: Reservation, cutoff: nat) {
    row.status != Reserved && row.resolvedAt.Some? && row.resolvedAt.value < cutoff
  }

  function PurgeTx(t: Tables, cutoff: nat, batch: set<Id>): Tables {
    t.(ledger := map id | id in t.ledger && !(id in batch && Expired(t.ledger[id], cutoff)) :: t.ledger[id])
  }

  function Tx(t: Tables, e: Event, clamp: bool): (Tables, Entry) {
    match e
    case Reserve(id, account, estimate, cap, at) =>
      if CeilCents(estimate).None? || CeilCents(cap).None? then (t, NotFinite)
      else ReserveTx(t, id, account, CeilCents(estimate).value, CeilCents(cap).value, at)
    case Reconcile(id, observed, at) =>
      if !observed.Finite? then (t, NotFinite)
      else ReconcileTx(t, id, RoundCents(observed.r), at, clamp)
    case Release(id, at) => ReleaseTx(t, id, at, clamp)
    case Purge(cutoff, batch) => (PurgeTx(t, cutoff, batch), Refused)
    case Abort => (t, Refused)
  }

  function StepWith(w: World, e: Event, clamp: bool): World {
    var (tables, entry) := Tx(w.tables, e, clamp);
    World(tables, w.log + [entry])
  }

  function Step(w: World, e: Event): World {
    StepWith(w, e, true)
  }

  function ExecWith(w: World, events: seq<Event>, clamp: bool): World {
    if events == [] then w
    else StepWith(ExecWith(w, events[..|events| - 1], clamp), events[|events| - 1], clamp)
  }

  function Exec(w: World, events: seq<Event>): World {
    ExecWith(w, events, true)
  }

  lemma {:induction false} ExecConcat(w: World, before: seq<Event>, after: seq<Event>)
    ensures Exec(w, before + after) == Exec(Exec(w, before), after)
  {
    hide StepWith;
    var all := before + after;
    if after == [] {
      assert all == before;
    } else {
      assert all[..|all| - 1] == before + after[..|after| - 1];
      ExecConcat(w, before, after[..|after| - 1]);
    }
  }

  // ---- Conservation -----------------------------------------------------------------

  function Counter(t: Tables, a: Account): int {
    if a in t.spend then t.spend[a] else 0
  }

  /** The reserved cents of the rows of `a` that are still open. */
  ghost function OpenRows(ledger: map<Id, Reservation>, a: Account): map<Id, int> {
    map id | id in ledger && ledger[id].status == Reserved && ledger[id].account == a :: ledger[id].reserved
  }

  ghost function OpenCents(ledger: map<Id, Reservation>, a: Account): int {
    MapSum.Sum(OpenRows(ledger, a))
  }

  /** The actual cents of every reconciliation of `a` so far, purged or not. */
  function SpentCents(log: seq<Entry>, a: Account): nat {
    if log == [] then 0
    else
      var e := log[|log| - 1];
      SpentCents(log[..|log| - 1], a) + if e.Settled? && e.account == a then e.actual else 0
  }

  /** What the counter of `a` should be: what is held plus what was really spent. */
  ghost function Owed(w: World, a: Account): int {
    OpenCents(w.tables.ledger, a) + SpentCents(w.log, a)
  }

  ghost predicate Balanced(w: World, a: Account) {
    Counter(w.tables, a) == Owed(w, a)
  }

  ghost predicate OpenHaveCounters(t: Tables) {
    forall id :: id in t.ledger && t.ledger[id].status == Reserved ==> t.ledger[id].account in t.spend
  }

  ghost predicate Books(w: World) {
    (forall a :: Balanced(w, a)) && OpenHaveCounters(w.tables)
  }

  /** What an entry does to the counter of `a` when nothing is clamped. */
  function Change(e: Entry, a: Account): int {
    if e.Opened? && e.account == a then e.reserved
    else if e.Settled? && e.account == a then e.actual - e.reserved
    else if e.Freed? && e.account == a then 0 - e.reserved
    else 0
  }

  /** An open reservation is covered by its counter. */
  lemma OpenIsCovered(w: World, id: Id)
    requires Books(w)
    requires id in w.tables.ledger && w.tables.ledger[id].status == Reserved
    ensures w.tables.ledger[id].account in w.tables.spend
    ensures w.tables.spend[w.tables.ledger[id].account] >= w.tables.ledger[id].reserved
  {
    var a := w.tables.ledger[id].account;
    assert Balanced(w, a);
    var open := OpenRows(w.tables.ledger, a);
    MapSum.SumRemove(open, id);
    MapSum.SumNonNegative(open - {id});
  }

  lemma OpenAfterInsert(ledger: map<Id, Reservation>, id: Id, row: Reservation, a: Account)
    requires id !in ledger && row.status == Reserved
    ensures OpenCents(ledger[id := row], a) == OpenCents(ledger, a) + if row.account == a then row.reserved else 0
  {
    var open, open' := OpenRows(ledger, a), OpenRows(ledger[id := row], a);
    if row.account == a {
      assert open' == open[id := row.reserved];
      MapSum.SumInsert(open, id, row.reserved);
    } else {
      assert open' == open;
    }
  }

  lemma OpenAfterResolve(ledger: map<Id, Reservation>, id: Id, row: Reservation, a: Account)
    requires id in ledger && ledger[id].status == Reserved && row.status != Reserved
    ensures OpenCents(ledger[id := row], a)
         == OpenCents(ledger, a) - if ledger[id].account == a then ledger[id].reserved else 0
  {
    var open, open' := OpenRows(ledger, a), OpenRows(ledger[id := row], a);
    if ledger[id].account == a {
      assert open' == open - {id};
      MapSum.SumRemove(open, id);
    } else {
      assert open' == open;
    }
  }

  lemma OpenAfterPurge(t: Tables, cutoff: nat, batch: set<Id>, a: Account)
    ensures OpenCents(PurgeTx(t, cutoff, batch).ledger, a) == OpenCents(t.ledger, a)
  {
    assert OpenRows(PurgeTx(t, cutoff, batch).ledger, a) == OpenRows(t.ledger, a);
  }

  lemma OpenIsNonNegative(ledger: map<Id, Reservation>, a: Account)
    ensures OpenCents(ledger, a) >= 0
  {
    MapSum.SumNonNegative(OpenRows(ledger, a));
  }

  /** Whatever the counters hold, each transaction changes what is owed as its entry says. */
  lemma OwedChanges(w: World, e: Event, clamp: bool, a: Account)
    ensures var w' := StepWith(w, e, clamp);
            Owed(w', a) == Owed(w, a) + Change(w'.log[|w.log|], a)
  {
    hide CeilCents, RoundCents, Charge;
    var w' := StepWith(w, e, clamp);
    var last := w'.log[|w.log|];
    assert w'.log[..|w'.log| - 1] == w.log;
    if last.Opened? {
      OpenAfterInsert(w.tables.ledger, last.id, w'.tables.ledger[last.id], a);
    } else if last.Settled? || last.Freed? {
      OpenAfterResolve(w.tables.ledger, last.id, w'.tables.ledger[last.id], a);
    } else if e.Purge? {
      OpenAfterPurge(w.tables, e.cutoff, e.batch, a);
    }
  }

  lemma StepBalances(w: World, e: Event, clamp: bool, a: Account)
    requires Books(w)
    ensures Balanced(StepWith(w, e, clamp), a)
  {
    hide CeilCents, RoundCents, Owed;
    OwedChanges(w, e, clamp, a);
    assert Balanced(w, a);
    var last := StepWith(w, e, clamp).log[|w.log|];
    if last.Settled? || last.Freed? {
      OpenIsCovered(w, last.id);
    }
  }

  lemma StepKeepsBooks(w: World, e: Event, clamp: bool)
    requires Books(w)
    ensures Books(StepWith(w, e, clamp))
    ensures StepWith(w, e, true) == StepWith(w, e, false)
    ensures Tx(w.tables, e, clamp).1 != CounterMissing
  {
    forall a ensures Balanced(StepWith(w, e, clamp), a) {
      StepBalances(w, e, clamp, a);
    }
    if (e.Reconcile? || e.Release?) && e.id in w.tables.ledger && w.tables.ledger[e.id].status == Reserved {
      OpenIsCovered(w, e.id);
    }
  }

  lemma {:induction false} ExecKeepsBooks(w: World, events: seq<Event>)
    requires Books(w)
    ensures Books(Exec(w, events))
    ensures ExecWith(w, events, true) == ExecWith(w, events, false)
  {
    if events != [] {
      var n := |events| - 1;
      ExecKeepsBooks(w, events[..n]);
      StepKeepsBooks(Exec(w, events[..n]), events[n], true);
    }
  }

  lemma EmptyBooks()
    ensures Books(EMPTY)
  {
    forall a ensures Balanced(EMPTY, a) {
      assert OpenRows(EMPTY.tables.ledger, a) == map[];
    }
  }

  /** In every reachable state each counter is what is still held plus what was really spent. */
  lemma Conservation(events: seq<Event>, a: Account)
    ensures var w := Exec(EMPTY, events);
            Counter(w.tables, a) == OpenCents(w.tables.ledger, a) + SpentCents(w.log, a)
  {
    EmptyBooks();
    ExecKeepsBooks(EMPTY, events);
    assert Balanced(Exec(EMPTY, events), a);
  }

  /** `GREATEST(0, ...)` never changes a value: dropping it gives the same run. */
  lemma ClampNeverBites(events: seq<Event>)
    ensures ExecWith(EMPTY, events, true) == ExecWith(EMPTY, events, false)
  {
    EmptyBooks();
    ExecKeepsBooks(EMPTY, events);
  }

  lemma {:induction false} LogGrows(w: World, events: seq<Event>, i: nat)
    requires i <= |events|
    ensures |Exec(w, events).log| == |w.log| + |events|
    ensures Exec(w, events[..i]).log <= Exec(w, events).log
    decreases |events|
  {
    if events != [] {
      var n := |events| - 1;
      if i <= n {
        LogGrows(w, events[..n], i);
        assert events[..n][..i] == events[..i];
      } else {
        LogGrows(w, events[..n], n);
        assert events[..i] == events;
      }
    }
  }

  /** The "daily budget counter missing" errors are unreachable. */
  lemma {:induction false} CounterIsNeverMissing(events: seq<Event>)
    ensures CounterMissing !in Exec(EMPTY, events).log
  {
    if events != [] {
      var n := |events| - 1;
      CounterIsNeverMissing(events[..n]);
      EmptyBooks();
      ExecKeepsBooks(EMPTY, events[..n]);
      StepKeepsBooks(Exec(EMPTY, events[..n]), events[n], true);
    }
  }

  /**
   Admission: a reservation is granted exactly when it fits under the cap on top of what is held
   and spent, also for the day's first reservation, whose insert the database does not guard.
   */
  lemma AdmissionIsByBalance(events: seq<Event>, id: Id, a: Account, estimate: nat, cap: nat, at: nat)
    requires id !in Exec(EMPTY, events).tables.ledger
    ensures var w := Exec(EMPTY, events);
            ReserveTx(w.tables, id, a, estimate, cap, at).1.Opened?
            == (OpenCents(w.tables.ledger, a) + SpentCents(w.log, a) + estimate <= cap)
  {
    Conservation(events, a);
    OpenIsNonNegative(Exec(EMPTY, events).tables.ledger, a);
  }

  // ---- In dollars -------------------------------------------------------------------

  /** `c` is the least whole number of cents, not below 0, that covers this many dollars. */
  predicate Covers(c: nat, usd: Num) {
    match usd
    case NaN => false
    case PosInf => false
    case NegInf => c == 0
    case Finite(u) => if u < 0.0 then c == 0 else 100.0 * u <= c as real < 100.0 * u + 1.0
  }

  /** `c` is the whole number of cents, not below 0, nearest to this many dollars; halves go up. */
  predicate Nearest(c: nat, usd: Num) {
    usd.Finite? && 100.0 * usd.r < c as real + 0.5 && (c == 0 || 100.0 * usd.r >= c as real - 0.5)
  }

  lemma CentsExist(usd: Num)
    ensures (exists c: nat :: Covers(c, usd)) <==> usd.Finite? || usd.NegInf?
    ensures (exists c: nat :: Nearest(c, usd)) <==> usd.Finite?
    ensures forall c: nat, d: nat :: Covers(c, usd) && Covers(d, usd) ==> c == d
    ensures forall c: nat, d: nat :: Nearest(c, usd) && Nearest(d, usd) ==> c == d
  {
    if usd.Finite? {
      assert Covers(CeilCents(usd).value, usd) && Nearest(RoundCents(usd.r), usd);
    } else if usd.NegInf? {
      assert Covers(0, usd);
    }
  }

  /**
   What `tryReserveBudget` does with dollars, in every reachable state: the reservation holds the
   cents that cover the estimate, exactly when with what the counter shows they do not pass the
   cents that cover the cap.
   */
  lemma ReserveInDollars(events: seq<Event>, id: Id, a: Account, estimate: Num, cap: Num, at: nat,
                         held: nat, limit: nat)
    requires id !in Exec(EMPTY, events).tables.ledger && Covers(held, estimate) && Covers(limit, cap)
    ensures var t := Exec(EMPTY, events).tables;
            var t' := Step(Exec(EMPTY, events), Reserve(id, a, estimate, cap, at)).tables;
            if Counter(t, a) + held <= limit then
              && Counter(t', a) == Counter(t, a) + held
              && (forall b :: b != a ==> Counter(t', b) == Counter(t, b))
              && t'.ledger == t.ledger[id := Reservation(a, held, None, Reserved, at, None)]
            else t' == t
  {
    CoveringCents(estimate, held);
    CoveringCents(cap, limit);
    hide CeilCents, Covers;
    EmptyBooks();
    ExecKeepsBooks(EMPTY, events);
    assert Balanced(Exec(EMPTY, events), a);
    OpenIsNonNegative(Exec(EMPTY, events).tables.ledger, a);
  }

  lemma CoveringCents(usd: Num, c: nat)
    requires Covers(c, usd)
    ensures CeilCents(usd) == Some(c)
  {}

  /** Amounts without cents change nothing. */
  lemma ReserveWithoutCents(w: World, id: Id, a: Account, estimate: Num, cap: Num, at: nat)
    requires (forall c: nat :: !Covers(c, estimate)) || forall c: nat :: !Covers(c, cap)
    ensures Step(w, Reserve(id, a, estimate, cap, at)).tables == w.tables
  {
    CentsExist(estimate);
    CentsExist(cap);
  }

  /**
   What `reconcileBudgetReservation` does with dollars: an open reservation ends with the cents
   nearest to the cost, and its counter moves by the difference; nothing else changes.
   */
  lemma ReconcileInDollars(events: seq<Event>, id: Id, observed: Num, at: nat, actual: nat)
    requires id in Exec(EMPTY, events).tables.ledger
    requires Exec(EMPTY, events).tables.ledger[id].status == Reserved && Nearest(actual, observed)
    ensures var t := Exec(EMPTY, events).tables;
            var row := t.ledger[id];
            var t' := Step(Exec(EMPTY, events), Reconcile(id, observed, at)).tables;
            && Counter(t', row.account) == Counter(t, row.account) + actual - row.reserved
            && (forall b :: b != row.account ==> Counter(t', b) == Counter(t, b))
            && t'.ledger == t.ledger[id :=
                 Reservation(row.account, row.reserved, Some(actual), Reconciled, row.createdAt, Some(at))]
  {
    CentsExist(observed);
    assert Nearest(RoundCents(observed.r), observed);
    EmptyBooks();
    ExecKeepsBooks(EMPTY, events);
    OpenIsCovered(Exec(EMPTY, events), id);
  }

  /** And `releaseBudgetReservation`, which takes all of it back. */
  lemma ReleaseInCents(events: seq<Event>, id: Id, at: nat)
    requires id in Exec(EMPTY, events).tables.ledger
    requires Exec(EMPTY, events).tables.ledger[id].status == Reserved
    ensures var t := Exec(EMPTY, events).tables;
            var row := t.ledger[id];
            var t' := Step(Exec(EMPTY, events), Release(id, at)).tables;
            && Counter(t', row.account) == Counter(t, row.account) - row.reserved
            && (forall b :: b != row.account ==> Counter(t', b) == Counter(t, b))
            && t'.ledger == t.ledger[id :=
                 Reservation(row.account, row.reserved, Some(0), Released, row.createdAt, Some(at))]
  {
    EmptyBooks();
    ExecKeepsBooks(EMPTY, events);
    OpenIsCovered(Exec(EMPTY, events), id);
  }

  /** A purge takes a row exactly when it is in the batch and was resolved before the cutoff. */
  lemma PurgeTakesIff(w: World, cutoff: nat, batch: set<Id>, id: Id)
    requires id in w.tables.ledger
    ensures var row := w.tables.ledger[id];
            var ledger := Step(w, Purge(cutoff, batch)).tables.ledger;
            id !in ledger <==> id in batch && (row.status == Reconciled || row.status == Released)
                               && exists t: nat :: row.resolvedAt == Some(t) && t < cutoff
    ensures var ledger := Step(w, Purge(cutoff, batch)).tables.ledger;
            id in ledger ==> ledger[id] == w.tables.ledger[id]
  {
    var row := w.tables.ledger[id];
    if row.resolvedAt.Some? {
      assert row.resolvedAt == Some(row.resolvedAt.value);
    }
  }

  // ---- Bounded overshoot ------------------------------------------------------------

  /** How far the reconciliations of `a` went above their estimates. */
  function Overrun(log: seq<Entry>, a: Account): nat {
    if log == [] then 0
    else
      var e := log[|log| - 1];
      Overrun(log[..|log| - 1], a)
      + if e.Settled? && e.account == a then Max(0, e.actual - e.reserved) else 0
  }

  ghost predicate CappedBy(events: seq<Event>, a: Account, cap: nat) {
    forall i :: 0 <= i < |events| && events[i].Reserve? && events[i].account == a
      ==> CeilCents(events[i].cap).None? || CeilCents(events[i].cap).value <= cap
  }

  lemma OvershootStep(w: World, e: Event, a: Account, cap: nat)
    requires Books(w)
    requires 0 <= Counter(w.tables, a) <= cap + Overrun(w.log, a)
    requires e.Reserve? && e.account == a ==> CeilCents(e.cap).None? || CeilCents(e.cap).value <= cap
    ensures 0 <= Counter(Step(w, e).tables, a) <= cap + Overrun(Step(w, e).log, a)
  {
    var w' := Step(w, e);
    var last := w'.log[|w'.log| - 1];
    assert w'.log[..|w'.log| - 1] == w.log;
    if last.Settled? || last.Freed? {
      OpenIsCovered(w, last.id);
    }
  }

  /** The counter passes the cap only by what reconciliations cost above their estimates. */
  lemma {:induction false} BoundedOvershoot(events: seq<Event>, a: Account, cap: nat)
    requires CappedBy(events, a, cap)
    ensures var w := Exec(EMPTY, events);
            0 <= Counter(w.tables, a) <= cap + Overrun(w.log, a)
  {
    if events != [] {
      var n := |events| - 1;
      BoundedOvershoot(events[..n], a, cap);
      EmptyBooks();
      ExecKeepsBooks(EMPTY, events[..n]);
      OvershootStep(Exec(EMPTY, events[..n]), events[n], a, cap);
    }
  }

  // ---- Exactly-once resolution ------------------------------------------------------

  predicate Opens(e: Entry, id: Id) {
    e.Opened? && e.id == id
  }

  predicate Resolves(e: Entry, id: Id) {
    (e.Settled? || e.Freed?) && e.id == id
  }

  function Openings(log: seq<Entry>, id: Id): nat {
    if log == [] then 0
    else Openings(log[..|log| - 1], id) + if Opens(log[|log| - 1], id) then 1 else 0
  }

  function Resolutions(log: seq<Entry>, id: Id): nat {
    if log == [] then 0
    else Resolutions(log[..|log| - 1], id) + if Resolves(log[|log| - 1], id) then 1 else 0
  }

  /** What a resolution of `id` does to its counter. */
  function Effect(log: seq<Entry>, id: Id): int {
    if log == [] then 0
    else
      var e := log[|log| - 1];
      Effect(log[..|log| - 1], id)
      + if e.Settled? && e.id == id then e.actual - e.reserved
        else if e.Freed? && e.id == id then 0 - e.reserved
        else 0
  }

  /** `randomUUID`: no id is reserved twice. */
  ghost predicate FreshIds(events: seq<Event>) {
    forall i, j :: 0 <= i < j < |events| && events[i].Reserve? && events[j].Reserve?
      ==> events[i].id != events[j].id
  }

  /** How the log accounts for reservation `id`, in step with the row while there is one. */
  ghost predicate Accounted(w: World, id: Id) {
    && Resolutions(w.log, id) <= 1
    && Openings(w.log, id) == (if id in w.tables.ledger then 1 else Resolutions(w.log, id))
    && (id in w.tables.ledger ==>
          var row := w.tables.ledger[id];
          && (row.status == Reserved <==> Resolutions(w.log, id) == 0)
          && Opened(id, row.account, row.reserved) in w.log)
    && (forall i :: 0 <= i < |w.log| && Resolves(w.log[i], id)
          ==> Opened(id, w.log[i].account, w.log[i].reserved) in w.log[..i])
  }

  /** What an entry about `id` says of its row, before and after. */
  lemma TxRow(t: Tables, e: Event, id: Id)
    ensures var (t', entry) := Tx(t, e, true);
            if Opens(entry, id) then
              && id !in t.ledger && id in t'.ledger && t'.ledger[id].status == Reserved
              && entry == Opened(id, t'.ledger[id].account, t'.ledger[id].reserved)
            else if Resolves(entry, id) then
              && id in t.ledger && id in t'.ledger && t.ledger[id].status == Reserved != t'.ledger[id].status
              && t'.ledger[id].account == t.ledger[id].account == entry.account
              && t'.ledger[id].reserved == t.ledger[id].reserved == entry.reserved
            else
              && (id in t'.ledger ==> id in t.ledger && t'.ledger[id] == t.ledger[id])
              && (id in t.ledger && id !in t'.ledger ==> t.ledger[id].status != Reserved)
  {
    hide CeilCents, RoundCents, Charge;
  }

  lemma StepAccounts(w: World, e: Event, id: Id)
    requires Accounted(w, id)
    requires e.Reserve? && e.id == id ==> Openings(w.log, id) == 0
    ensures Accounted(Step(w, e), id)
  {
    StepCounts(w, e, id);
    TxRow(w.tables, e, id);
    hide Openings, Resolutions, Tx;
    var w' := Step(w, e);
    var n := |w.log|;
    assert w'.log[..n] == w.log;
    forall i | 0 <= i <= n && Resolves(w'.log[i], id)
      ensures Opened(id, w'.log[i].account, w'.log[i].reserved) in w'.log[..i]
    {
      assert w'.log[..i] == w.log[..i];
      assert i < n ==> w'.log[i] == w.log[i];
    }
    if id in w'.tables.ledger {
      var row := w'.tables.ledger[id];
      if Opened(id, row.account, row.reserved) in w.log {
      } else {
        assert w'.log[n] == Opened(id, row.account, row.reserved);
      }
    }
  }

  lemma StepCounts(w: World, e: Event, id: Id)
    ensures var w' := Step(w, e);
            var last := w'.log[|w.log|];
            && Openings(w'.log, id) == Openings(w.log, id) + (if Opens(last, id) then 1 else 0)
            && Resolutions(w'.log, id) == Resolutions(w.log, id) + (if Resolves(last, id) then 1 else 0)
            && (Opens(last, id) ==> e.Reserve? && e.id == id)
  {
    assert Step(w, e).log[..|w.log|] == w.log;
  }

  lemma {:induction false} OpeningNeedsReserve(events: seq<Event>, id: Id)
    ensures Openings(Exec(EMPTY, events).log, id) > 0
            ==> exists i :: 0 <= i < |events| && events[i].Reserve? && events[i].id == id
  {
    if events != [] {
      var n := |events| - 1;
      var w := Exec(EMPTY, events[..n]);
      OpeningNeedsReserve(events[..n], id);
      StepCounts(w, events[n], id);
      hide StepWith;
      if Openings(w.log, id) > 0 {
        var i :| 0 <= i < n && events[..n][i].Reserve? && events[..n][i].id == id;
        assert events[i].Reserve? && events[i].id == id;
      }
    }
  }

  lemma {:induction false} ExecAccounts(events: seq<Event>, id: Id)
    requires FreshIds(events)
    ensures Accounted(Exec(EMPTY, events), id)
  {
    hide StepWith, Openings;
    if events == [] {
      assert Openings([], id) == 0 by {
        OpeningNeedsReserve([], id);
      }
    } else {
      var n := |events| - 1;
      ExecAccounts(events[..n], id);
      OpeningNeedsReserve(events[..n], id);
      StepAccounts(Exec(EMPTY, events[..n]), events[n], id);
    }
  }

  lemma {:induction false} EffectOfResolutions(log: seq<Entry>, id: Id)
    ensures Resolutions(log, id) == 0
            ==> Effect(log, id) == 0 && forall i :: 0 <= i < |log| ==> !Resolves(log[i], id)
    ensures Resolutions(log, id) == 1
            ==> exists i :: 0 <= i < |log| && TheResolution(log, id, i)
  {
    if log != [] {
      var n := |log| - 1;
      EffectOfResolutions(log[..n], id);
      forall i | 0 <= i < n
        ensures log[..n][i] == log[i]
      {}
      if Resolves(log[n], id) {
        if Resolutions(log, id) == 1 {
          assert forall i :: 0 <= i < n ==> !Resolves(log[..n][i], id);
          assert TheResolution(log, id, n);
        }
      } else if Resolutions(log, id) == 1 {
        var i :| 0 <= i < n && TheResolution(log[..n], id, i);
        assert forall j :: 0 <= j < n && j != i ==> !Resolves(log[..n][j], id);
        assert TheResolution(log, id, i);
      } else if Resolutions(log, id) == 0 {
        assert forall i :: 0 <= i < n ==> !Resolves(log[..n][i], id);
      }
    }
  }

  /** Entry `i` is the one resolution of `id`, and all that ever happened to its counter. */
  ghost predicate TheResolution(log: seq<Entry>, id: Id, i: nat)
    requires i < |log|
  {
    && Resolves(log[i], id)
    && (forall j :: 0 <= j < |log| && j != i ==> !Resolves(log[j], id))
    && Effect(log, id) == (if log[i].Settled? then log[i].actual - log[i].reserved else 0 - log[i].reserved)
  }

  /** A reservation that is still in the ledger is open exactly while nothing has resolved it. */
  lemma OpenUntilResolved(events: seq<Event>, id: Id)
    requires FreshIds(events) && id in Exec(EMPTY, events).tables.ledger
    ensures var w := Exec(EMPTY, events);
            w.tables.ledger[id].status == Reserved <==> Resolutions(w.log, id) == 0
  {
    ExecAccounts(events, id);
  }

  // ---- What resolutions do to the counter -------------------------------------------

  /** The sum of what the entries of the log did to the counter of `a`. */
  function Flow(log: seq<Entry>, a: Account): int {
    if log == [] then 0 else Flow(log[..|log| - 1], a) + Change(log[|log| - 1], a)
  }

  /** The same without the resolutions of `id`. */
  function FlowWithout(log: seq<Entry>, a: Account, id: Id): int {
    if log == [] then 0
    else
      var e := log[|log| - 1];
      FlowWithout(log[..|log| - 1], a, id) + if Resolves(e, id) then 0 else Change(e, a)
  }

  /** In every reachable state a counter is the sum of what the transactions did to it. */
  lemma {:induction false} CounterIsFlow(events: seq<Event>, a: Account)
    ensures var w := Exec(EMPTY, events);
            Counter(w.tables, a) == Flow(w.log, a)
  {
    hide StepWith, Owed, Change;
    EmptyBooks();
    ExecKeepsBooks(EMPTY, events);
    assert Balanced(Exec(EMPTY, events), a);
    if events == [] {
      NothingOwed(a);
    } else {
      var n := |events| - 1;
      var w := Exec(EMPTY, events[..n]);
      CounterIsFlow(events[..n], a);
      ExecKeepsBooks(EMPTY, events[..n]);
      assert Balanced(w, a);
      OwedChanges(w, events[n], true, a);
      StepLogs(w, events[n]);
    }
  }

  lemma NothingOwed(a: Account)
    ensures Counter(EMPTY.tables, a) == Flow(EMPTY.log, a) == 0
  {}

  lemma StepLogs(w: World, e: Event)
    ensures Step(w, e).log[..|Step(w, e).log| - 1] == w.log && |Step(w, e).log| == |w.log| + 1
  {}

  lemma {:induction false} FlowSplits(log: seq<Entry>, a: Account, id: Id)
    requires forall i :: 0 <= i < |log| && Resolves(log[i], id) ==> log[i].account == a
    ensures Flow(log, a) == FlowWithout(log, a, id) + Effect(log, id)
  {
    if log != [] {
      FlowSplits(log[..|log| - 1], a, id);
    }
  }

  lemma {:induction false} FlowElsewhere(log: seq<Entry>, a: Account, id: Id)
    requires forall i :: 0 <= i < |log| && Resolves(log[i], id) ==> log[i].account != a
    ensures Flow(log, a) == FlowWithout(log, a, id)
  {
    if log != [] {
      FlowElsewhere(log[..|log| - 1], a, id);
    }
  }

  lemma {:induction false} OpenedAtMostOnce(log: seq<Entry>, id: Id, i: nat, j: nat)
    requires Openings(log, id) <= 1 && i < |log| && j < |log| && Opens(log[i], id) && Opens(log[j], id)
    ensures i == j
  {
    var n := |log| - 1;
    if i < n && j < n {
      OpenedAtMostOnce(log[..n], id, i, j);
    } else if i < n || j < n {
      OpeningCounted(log[..n], id, if i < n then i else j);
    }
  }

  lemma {:induction false} OpeningCounted(log: seq<Entry>, id: Id, i: nat)
    requires i < |log| && Opens(log[i], id)
    ensures Openings(log, id) >= 1
  {
    if i < |log| - 1 {
      OpeningCounted(log[..|log| - 1], id, i);
    }
  }

  /**
   The effect of a reservation is what its resolution did to the counter of the account it was
   opened for, and to no other counter.
   */
  lemma EffectOnCounter(events: seq<Event>, id: Id, k: nat, a: Account)
    requires FreshIds(events)
    requires k < |Exec(EMPTY, events).log| && Opens(Exec(EMPTY, events).log[k], id)
    ensures var w := Exec(EMPTY, events);
            Counter(w.tables, a)
            == FlowWithout(w.log, a, id) + if a == w.log[k].account then Effect(w.log, id) else 0
  {
    hide Step, Flow, FlowWithout, Effect, Openings;
    var log := Exec(EMPTY, events).log;
    CounterIsFlow(events, a);
    ExecAccounts(events, id);
    forall i | 0 <= i < |log| && Resolves(log[i], id) ensures log[i].account == log[k].account {
      var j :| 0 <= j < i && log[..i][j] == Opened(id, log[i].account, log[i].reserved);
      OpenedAtMostOnce(log, id, j, k);
    }
    if a == log[k].account {
      FlowSplits(log, a, id);
    } else {
      FlowElsewhere(log, a, id);
    }
  }

  /** A counter is what the other entries made it, plus the effect of `id` on the account it was opened for. */
  ghost predicate EffectShows(w: World, id: Id) {
    forall k, a :: 0 <= k < |w.log| && Opens(w.log[k], id) ==>
      Counter(w.tables, a)
      == FlowWithout(w.log, a, id) + if a == w.log[k].account then Effect(w.log, id) else 0
  }

  /**
   Whatever duplicates of reconcile, release and recovery are interleaved, a reservation is
   resolved at most once, for the amount that was reserved; its net effect on the counter after
   opening is nothing, the actual minus the reserved cents, or minus the reserved cents.
   */
  lemma ExactlyOnce(events: seq<Event>, id: Id)
    requires FreshIds(events)
    ensures EffectShows(Exec(EMPTY, events), id)
    ensures var log := Exec(EMPTY, events).log;
            || (Effect(log, id) == 0 && forall i :: 0 <= i < |log| ==> !Resolves(log[i], id))
            || (exists i :: 0 <= i < |log| && TheResolution(log, id, i)
                            && Opened(id, log[i].account, log[i].reserved) in log[..i])
  {
    ExecAccounts(events, id);
    EffectOfResolutions(Exec(EMPTY, events).log, id);
    var log := Exec(EMPTY, events).log;
    forall k, a | 0 <= k < |log| && Opens(log[k], id)
      ensures Counter(Exec(EMPTY, events).tables, a)
           == FlowWithout(log, a, id) + if a == log[k].account then Effect(log, id) else 0
    {
      EffectOnCounter(events, id, k, a);
    }
  }

  // ---- The path that bypasses the ledger --------------------------------------------

  /** `applyBudgetDelta`: an upsert of the counter alone. */
  function ApplyDelta(t: Tables, a: Account, cents: int): Tables {
    if cents == 0 then t else t.(spend := t.spend[a := Max(0, Counter(t, a) + cents)])
  }

  /**
   `reconcileBudget`: the counter of the account of the call's own day takes the delta, unless the
   write fails, which is swallowed. The ledger is untouched.
   */
  function Bypassed(w: World, b: Account, cents: int, written: bool): World {
    if written then w.(tables := ApplyDelta(w.tables, b, cents)) else w
  }

  predicate Touches(e: Event, id: Id) {
    (e.Reserve? || e.Reconcile? || e.Release?) && e.id == id
  }

  /** The books are right but for account `b`, whose counter is `lag` below what is owed. */
  ghost predicate BooksBut(w: World, b: Account, lag: int) {
    && (forall a :: a != b ==> Balanced(w, a))
    && lag <= Owed(w, b) && Counter(w.tables, b) == Owed(w, b) - lag
    && OpenHaveCounters(w.tables)
  }

  /** Whatever the counters hold, the clamp acts on the sum. */
  lemma CounterChanges(w: World, e: Event, a: Account)
    requires OpenHaveCounters(w.tables) && Counter(w.tables, a) >= 0
    ensures OpenHaveCounters(Step(w, e).tables)
    ensures Counter(Step(w, e).tables, a) == Max(0, Counter(w.tables, a) + Change(Step(w, e).log[|w.log|], a))
  {
    hide CeilCents, RoundCents;
  }

  lemma OwedIsNonNegative(w: World, a: Account)
    ensures Owed(w, a) >= 0
  {
    OpenIsNonNegative(w.tables.ledger, a);
  }

  /** A step never makes the lag larger, and clamping cuts it to what is still owed. */
  lemma StepKeepsLag(w: World, e: Event, b: Account, lag: int)
    requires BooksBut(w, b, lag)
    ensures BooksBut(Step(w, e), b, Min(lag, Owed(Step(w, e), b)))
  {
    hide Step, OpenHaveCounters, Owed;
    LagAt(w, e, b, lag);
    forall a | a != b ensures Balanced(Step(w, e), a) {
      OwedIsNonNegative(w, a);
      assert Balanced(w, a);
      LagAt(w, e, a, 0);
      OwedIsNonNegative(Step(w, e), a);
    }
  }

  lemma LagAt(w: World, e: Event, a: Account, lag: int)
    requires OpenHaveCounters(w.tables) && lag <= Owed(w, a) && Counter(w.tables, a) == Owed(w, a) - lag
    ensures OpenHaveCounters(Step(w, e).tables)
    ensures Counter(Step(w, e).tables, a) == Owed(Step(w, e), a) - Min(lag, Owed(Step(w, e), a))
  {
    hide Step, OpenHaveCounters, Owed, Change;
    StepLogs(w, e);
    CounterChanges(w, e, a);
    OwedChangesOnce(w, e, a);
  }

  lemma OwedChangesOnce(w: World, e: Event, a: Account)
    ensures Owed(Step(w, e), a) == Owed(w, a) + Change(Step(w, e).log[|w.log|], a)
  {
    OwedChanges(w, e, true, a);
  }

  /** The least that was owed at any time of a run. */
  ghost function Trough(w: World, events: seq<Event>, b: Account): int {
    if events == [] then Owed(w, b)
    else Min(Trough(w, events[..|events| - 1], b), Owed(Exec(w, events), b))
  }

  /** It is 0 exactly when at some time nothing at all was held or spent. */
  lemma {:induction false} TroughIsZeroIff(w: World, events: seq<Event>, b: Account)
    ensures Trough(w, events, b) >= 0
    ensures Trough(w, events, b) == 0 <==> exists i :: 0 <= i <= |events| && Owed(Exec(w, events[..i]), b) == 0
  {
    hide Exec, Owed;
    var all := |events|;
    assert events[..all] == events;
    OwedIsNonNegative(Exec(w, events), b);
    if events == [] {
      assert Exec(w, events) == w by {
        ExecNothing(w);
      }
    } else {
      var n := |events| - 1;
      TroughIsZeroIff(w, events[..n], b);
      assert forall i :: 0 <= i <= n ==> events[..n][..i] == events[..i];
      if Trough(w, events[..n], b) == 0 {
        var i :| 0 <= i <= n && Owed(Exec(w, events[..n][..i]), b) == 0;
        assert Owed(Exec(w, events[..i]), b) == 0;
      }
      if i :| 0 <= i <= |events| && Owed(Exec(w, events[..i]), b) == 0 {
        assert i <= n ==> Owed(Exec(w, events[..n][..i]), b) == 0;
      }
    }
  }

  lemma ExecNothing(w: World)
    ensures Exec(w, []) == w
  {}

  lemma {:induction false} RunKeepsLag(w: World, events: seq<Event>, b: Account, lag: int)
    requires BooksBut(w, b, lag)
    ensures BooksBut(Exec(w, events), b, Min(lag, Trough(w, events, b)))
  {
    hide StepWith, BooksBut, Owed;
    if events == [] {
      LagIsBounded(w, b, lag);
    } else {
      var n := |events| - 1;
      RunKeepsLag(w, events[..n], b, lag);
      StepKeepsLag(Exec(w, events[..n]), events[n], b, Min(lag, Trough(w, events[..n], b)));
    }
  }

  lemma LagIsBounded(w: World, b: Account, lag: int)
    requires BooksBut(w, b, lag)
    ensures lag <= Owed(w, b)
  {}

  lemma BypassMakesLag(w: World, b: Account, cents: int, written: bool)
    requires Books(w)
    ensures var u := Bypassed(w, b, cents, written);
            BooksBut(u, b, if written then Min(0 - cents, Owed(w, b)) else 0) && u.tables.ledger == w.tables.ledger
    ensures forall a :: Owed(Bypassed(w, b, cents, written), a) == Owed(w, a)
  {
    hide Owed;
    OwedIsNonNegative(w, b);
    assert Balanced(w, b);
    var u := Bypassed(w, b, cents, written);
    forall a ensures Owed(u, a) == Owed(w, a) && (a != b ==> Balanced(u, a)) {
      SameLedgerOwesTheSame(w, u, a);
      assert Balanced(w, a);
    }
  }

  lemma SameLedgerOwesTheSame(u: World, v: World, a: Account)
    requires u.tables.ledger == v.tables.ledger && u.log == v.log
    ensures Owed(u, a) == Owed(v, a)
  {}

  /**
   What any bypass leaves behind, after anything other clients and recovery do: every other
   counter is right, and the one written to is below what is owed by minus the delta, cut to the
   least that was owed at any time since.
   */
  lemma BypassLeaves(events: seq<Event>, b: Account, cents: int, written: bool, after: seq<Event>, a: Account)
    ensures var u := Bypassed(Exec(EMPTY, events), b, cents, written);
            var late := Exec(u, after);
            Counter(late.tables, a)
            == Owed(late, a) - if a == b && written then Min(0 - cents, Trough(u, after, b)) else 0
  {
    hide Exec, Owed, Trough, Bypassed;
    var w := Exec(EMPTY, events);
    EmptyBooks();
    ExecKeepsBooks(EMPTY, events);
    BypassMakesLag(w, b, cents, written);
    var u := Bypassed(w, b, cents, written);
    RunKeepsLag(u, after, b, if written then Min(0 - cents, Owed(w, b)) else 0);
    TroughStartsAt(u, after, b);
    TroughIsZeroIff(u, after, b);
    assert a != b ==> Balanced(Exec(u, after), a);
  }

  lemma {:induction false} TroughStartsAt(w: World, events: seq<Event>, b: Account)
    ensures Trough(w, events, b) <= Owed(w, b)
  {
    hide Exec, Owed;
    if events != [] {
      TroughStartsAt(w, events[..|events| - 1], b);
    }
  }

  /** Recovery of the open row after a bypass for `actual` cents that landed on `b`. */
  ghost function Recovered(w: World, id: Id, actual: nat, b: Account, written: bool,
                           between: seq<Event>, at: nat): World
    requires id in w.tables.ledger
  {
    Exec(Bypassed(w, b, actual - w.tables.ledger[id].reserved, written), between + [Release(id, at)])
  }

  /** The turn's cost is on the day it was reserved for, and the day of the write is right as well. */
  ghost predicate RightAfter(late: World, a: Account, b: Account, actual: nat) {
    && Counter(late.tables, a) == Owed(late, a) + actual
    && (b != a ==> Counter(late.tables, b) == Owed(late, b))
  }

  /**
   After `reconcileBudget` a stale recovery subtracts the reservation again. Whatever other clients
   do in between, the books are right afterwards exactly when
   - the delta was not written, and the turn cost nothing;
   - it was written to the reservation's day, and there was nothing to subtract, from the
     reservation or from the counter that recovery finds;
   - it was written to another day, the turn cost nothing, and either nothing was reserved or the
     other day's books were empty at the write or at some time since.
   */
  lemma BypassDrift(events: seq<Event>, id: Id, actual: nat, b: Account, written: bool, between: seq<Event>, at: nat)
    requires id in Exec(EMPTY, events).tables.ledger
    requires Exec(EMPTY, events).tables.ledger[id].status == Reserved
    requires forall i :: 0 <= i < |between| ==> !Touches(between[i], id)
    ensures var w := Exec(EMPTY, events);
            var row := w.tables.ledger[id];
            var u := Bypassed(w, b, actual - row.reserved, written);
            RightAfter(Recovered(w, id, actual, b, written, between, at), row.account, b, actual)
            <==> if !written then actual == 0
                 else if b == row.account then row.reserved == 0 || Counter(Exec(u, between).tables, b) == 0
                 else actual == 0 && (row.reserved == 0 || Trough(u, between, b) == 0)
  {
    hide *;
    var w := Exec(EMPTY, events);
    var row := w.tables.ledger[id];
    var a, cents := row.account, actual - row.reserved;
    var u := Bypassed(w, b, cents, written);
    var late, end := Exec(u, between), Exec(u, between + [Release(id, at)]);
    BypassStands(events, id, b, cents, written, between, at);
    BypassLeaves(events, b, cents, written, between + [Release(id, at)], a);
    BypassLeaves(events, b, cents, written, between + [Release(id, at)], b);
    BypassLeaves(events, b, cents, written, between, b);
    DriftCases(row.reserved, actual, Trough(u, between, b), Owed(late, b), b == a, written);
    RecoveredIs(w, id, actual, b, written, between, at);
    RightAfterIs(end, a, b, actual);
  }

  lemma RecoveredIs(w: World, id: Id, actual: nat, b: Account, written: bool, between: seq<Event>, at: nat)
    requires id in w.tables.ledger
    ensures Recovered(w, id, actual, b, written, between, at)
         == Exec(Bypassed(w, b, actual - w.tables.ledger[id].reserved, written), between + [Release(id, at)])
  {}

  lemma RightAfterIs(late: World, a: Account, b: Account, actual: nat)
    ensures RightAfter(late, a, b, actual) <==>
            && Counter(late.tables, a) == Owed(late, a) + actual
            && (b != a ==> Counter(late.tables, b) == Owed(late, b))
  {}

  /** How what is owed on `b` goes on until recovery and through it. */
  lemma BypassStands(events: seq<Event>, id: Id, b: Account, cents: int, written: bool, between: seq<Event>, at: nat)
    requires id in Exec(EMPTY, events).tables.ledger
    requires Exec(EMPTY, events).tables.ledger[id].status == Reserved
    requires forall i :: 0 <= i < |between| ==> !Touches(between[i], id)
    ensures var row := Exec(EMPTY, events).tables.ledger[id];
            var u := Bypassed(Exec(EMPTY, events), b, cents, written);
            var late, end := Exec(u, between), Exec(u, between + [Release(id, at)]);
            && 0 <= Trough(u, between, b) <= Owed(late, b)
            && (b == row.account ==> Trough(u, between, b) >= row.reserved)
            && Owed(end, b) == Owed(late, b) - (if b == row.account then row.reserved else 0)
            && Trough(u, between + [Release(id, at)], b) == Min(Trough(u, between, b), Owed(end, b))
            && Owed(end, b) >= 0
  {
    hide StepWith, Owed, Trough, Bypassed;
    var w := Exec(EMPTY, events);
    var u := Bypassed(w, b, cents, written);
    EmptyBooks();
    ExecKeepsBooks(EMPTY, events);
    BypassMakesLag(w, b, cents, written);
    StaysOpen(u, between, id);
    RunKeepsLag(u, between, b, if written then Min(0 - cents, Owed(w, b)) else 0);
    TroughIsZeroIff(u, between, b);
    TroughEnds(u, between, b);
    OpenKeepsTrough(u, between, id);
    ReleaseOwes(Exec(u, between), id, at, b);
    TroughOfOneMore(u, between, Release(id, at), b);
    OwedIsNonNegative(Step(Exec(u, between), Release(id, at)), b);
  }

  lemma TroughEnds(w: World, events: seq<Event>, b: Account)
    ensures Trough(w, events, b) <= Owed(Exec(w, events), b)
  {
    hide Owed, Step;
  }

  /** The arithmetic of the three cases; `owed` is what is owed on the day of the write at recovery. */
  lemma DriftCases(reserved: nat, actual: nat, trough: nat, owed: int, same: bool, written: bool)
    requires trough <= owed && (same ==> reserved <= trough)
    ensures var left := owed - if same then reserved else 0;
            var lag := if written then Min(reserved - actual, Min(trough, left)) else 0;
            var found := owed - if written then Min(reserved - actual, trough) else 0;
            (if same then 0 - lag == actual else actual == 0 && lag == 0)
            <==> if !written then actual == 0
                 else if same then reserved == 0 || found == 0
                 else actual == 0 && (reserved == 0 || trough == 0)
  {}

  lemma TroughOfOneMore(w: World, events: seq<Event>, e: Event, b: Account)
    ensures Exec(w, events + [e]) == Step(Exec(w, events), e)
    ensures Trough(w, events + [e], b) == Min(Trough(w, events, b), Owed(Step(Exec(w, events), e), b))
  {
    assert (events + [e])[..|events|] == events;
  }

  lemma StaysOpenStep(w: World, e: Event, id: Id)
    requires id in w.tables.ledger && w.tables.ledger[id].status == Reserved && !Touches(e, id)
    ensures id in Step(w, e).tables.ledger && Step(w, e).tables.ledger[id] == w.tables.ledger[id]
  {
    hide CeilCents, RoundCents, Charge;
  }

  lemma {:induction false} StaysOpen(w: World, events: seq<Event>, id: Id)
    requires id in w.tables.ledger && w.tables.ledger[id].status == Reserved
    requires forall i :: 0 <= i < |events| ==> !Touches(events[i], id)
    ensures id in Exec(w, events).tables.ledger && Exec(w, events).tables.ledger[id] == w.tables.ledger[id]
  {
    hide StepWith;
    if events != [] {
      StaysOpen(w, events[..|events| - 1], id);
      StaysOpenStep(Exec(w, events[..|events| - 1]), events[|events| - 1], id);
    }
  }

  /** While a row is open, at least its reservation is owed. */
  lemma OpenIsOwed(w: World, id: Id)
    requires id in w.tables.ledger && w.tables.ledger[id].status == Reserved
    ensures Owed(w, w.tables.ledger[id].account) >= w.tables.ledger[id].reserved
  {
    var open := OpenRows(w.tables.ledger, w.tables.ledger[id].account);
    MapSum.SumRemove(open, id);
    MapSum.SumNonNegative(open - {id});
  }

  lemma {:induction false} OpenKeepsTrough(w: World, events: seq<Event>, id: Id)
    requires id in w.tables.ledger && w.tables.ledger[id].status == Reserved
    requires forall i :: 0 <= i < |events| ==> !Touches(events[i], id)
    ensures Trough(w, events, w.tables.ledger[id].account) >= w.tables.ledger[id].reserved
  {
    hide StepWith, Owed;
    StaysOpen(w, events, id);
    OpenIsOwed(Exec(w, events), id);
    if events != [] {
      OpenKeepsTrough(w, events[..|events| - 1], id);
    }
  }

  /** Releasing an open row takes its reservation off what its account owes. */
  lemma ReleaseOwes(w: World, id: Id, at: nat, b: Account)
    requires OpenHaveCounters(w.tables) && id in w.tables.ledger && w.tables.ledger[id].status == Reserved
    ensures Owed(Step(w, Release(id, at)), b)
         == Owed(w, b) - if b == w.tables.ledger[id].account then w.tables.ledger[id].reserved else 0
  {
    OwedChanges(w, Release(id, at), true, b);
  }
}

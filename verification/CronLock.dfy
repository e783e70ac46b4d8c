/**
 The reclaimable cron lock, as the history of the `cron_runs` row of one job and one UTC day.
 An acquisition is two statements, reclaim then insert, and anything may run between them. Done
 and fail overwrite the status whoever holds the lock; the start-up clean-up closes rows that
 have been running for five minutes.
 */
module CronLock {
  import opened Common

  const LOCK_TTL_MS: nat := 2 * 60 * 60 * 1000
  const CLEANUP_MS: nat := 5 * 60 * 1000
  const DAY_MS: nat := 24 * 60 * 60 * 1000

  datatype Status = Started | Done | Error

  datatype Row = Row(status: Status, startedAt: nat)

  /** `Closed` is any statement that leaves the row outside `Started`. */
  datatype Entry = Acquired(call: nat, at: nat, byInsert: bool) | Closed(at: nat) | Idle

  datatype World = World(midnight: nat, now: nat, row: Option<Row>, log: seq<Entry>)

  /** `call` is when the caller read its clock; the statement runs then or later. */
  datatype Event =
    | Reclaim(call: nat)
    | Insert(call: nat)
    | Finish(ok: bool)
    | Cleanup
    | Tick(ms: nat)

  function Fresh(midnight: nat): World {
    World(midnight, midnight, None, [])
  }

  /** The caller's clock is not ahead, and its day is this row's day. */
  predicate Concerns(w: World, call: nat) {
    w.midnight <= call < w.midnight + DAY_MS && call <= w.now
  }

  predicate Stale(row: Row, call: nat) {
    row.status == Started && row.startedAt + LOCK_TTL_MS < call
  }

  function Step(w: World, e: Event): World {
    match e
    case Reclaim(call) =>
      if Concerns(w, call) && w.row.Some? && Stale(w.row.value, call) then
        w.(row := Some(Row(Started, w.now)), log := w.log + [Acquired(call, w.now, false)])
      else w.(log := w.log + [Idle])
    case Insert(call) =>
      if Concerns(w, call) && w.row.None? then
        w.(row := Some(Row(Started, w.now)), log := w.log + [Acquired(call, w.now, true)])
      else w.(log := w.log + [Idle])
    case Finish(ok) =>
      if w.row.Some? then
        w.(row := Some(w.row.value.(status := if ok then Done else Error)), log := w.log + [Closed(w.now)])
      else w.(log := w.log + [Idle])
    case Cleanup =>
      if w.row.Some? && w.row.value.status == Started && w.row.value.startedAt + CLEANUP_MS < w.now then
        w.(row := Some(w.row.value.(status := Error)), log := w.log + [Closed(w.now)])
      else w.(log := w.log + [Idle])
    case Tick(ms) => w.(now := w.now + ms, log := w.log + [Idle])
  }

  function Exec(w: World, events: seq<Event>): World {
    if events == [] then w
    else Step(Exec(w, events[..|events| - 1]), events[|events| - 1])
  }

  lemma {:induction false} ExecConcat(w: World, before: seq<Event>, after: seq<Event>)
    ensures Exec(w, before + after) == Exec(Exec(w, before), after)
  {
    hide Step;
    var all := before + after;
    if after == [] {
      assert all == before;
    } else {
      assert all[..|all| - 1] == before + after[..|after| - 1];
      ExecConcat(w, before, after[..|after| - 1]);
    }
  }

  function Acquisitions(log: seq<Entry>): nat {
    if log == [] then 0
    else Acquisitions(log[..|log| - 1]) + if log[|log| - 1].Acquired? then 1 else 0
  }

  /** Later acquisitions are reclaims, more than two hours after earlier ones, and none follows a close. */
  ghost predicate Spaced(log: seq<Entry>) {
    && (forall i, j :: 0 <= i < j < |log| && log[i].Acquired? && log[j].Acquired?
          ==> log[i].at + LOCK_TTL_MS < log[j].call && !log[j].byInsert)
    && (forall i, j :: 0 <= i < j < |log| && log[i].Closed? ==> !log[j].Acquired?)
    && (forall i :: 0 <= i < |log| && log[i].Acquired? ==> log[i].call <= log[i].at)
  }

  /** What the row shows of the log. */
  ghost predicate RowAgrees(w: World) {
    && w.midnight <= w.now
    && (w.row.None? ==> forall i :: 0 <= i < |w.log| ==> w.log[i] == Idle)
    && (w.row.Some? ==>
          && w.midnight <= w.row.value.startedAt <= w.now
          && (forall i :: 0 <= i < |w.log| && w.log[i].Acquired? ==> w.log[i].at <= w.row.value.startedAt)
          && (w.row.value.status == Started ==> forall i :: 0 <= i < |w.log| ==> !w.log[i].Closed?))
  }

  /** Each acquisition after the first used up more than two hours of the day. */
  ghost predicate Counted(w: World) {
    && (Acquisitions(w.log) > 0 ==>
          w.row.Some? && w.row.value.startedAt >= w.midnight + (Acquisitions(w.log) - 1) * (LOCK_TTL_MS + 1))
    && Acquisitions(w.log) <= 12
  }

  ghost predicate Ok(w: World) {
    Spaced(w.log) && RowAgrees(w) && Counted(w)
  }

  lemma StepKeepsOk(w: World, e: Event)
    requires Ok(w)
    ensures Ok(Step(w, e))
  {
    StepKeepsRow(w, e);
    StepKeepsCount(w, e);
    StepKeepsSpacing(w, e);
  }

  lemma StepKeepsRow(w: World, e: Event)
    requires RowAgrees(w)
    ensures RowAgrees(Step(w, e))
  {
    var w' := Step(w, e);
    assert w'.log == w.log + [w'.log[|w.log|]];
  }

  lemma StepKeepsCount(w: World, e: Event)
    requires RowAgrees(w) && Counted(w)
    ensures Counted(Step(w, e))
  {
    var w' := Step(w, e);
    var last := w'.log[|w.log|];
    assert w'.log[..|w'.log| - 1] == w.log;
    if last.Acquired? {
      if last.byInsert {
        NoneIn(w.log);
      } else {
        assert w.row.value.startedAt + LOCK_TTL_MS < last.call < w.midnight + DAY_MS;
      }
    }
  }

  lemma StepKeepsSpacing(w: World, e: Event)
    requires Spaced(w.log) && RowAgrees(w)
    ensures Spaced(Step(w, e).log)
  {
    var w' := Step(w, e);
    SpacedExtends(w.log, w'.log[|w.log|]);
    hide Spaced;
  }

  lemma SpacedExtends(log: seq<Entry>, last: Entry)
    requires Spaced(log)
    requires last.Acquired? ==>
      && last.call <= last.at
      && forall i :: 0 <= i < |log| ==>
           !log[i].Closed? && (log[i].Acquired? ==> log[i].at + LOCK_TTL_MS < last.call && !last.byInsert)
    ensures Spaced(log + [last])
  {
    var log' := log + [last];
    assert forall i :: 0 <= i < |log| ==> log'[i] == log[i];
  }

  lemma {:induction false} NoneIn(log: seq<Entry>)
    requires forall i :: 0 <= i < |log| ==> !log[i].Acquired?
    ensures Acquisitions(log) == 0
  {
    if log != [] {
      NoneIn(log[..|log| - 1]);
    }
  }

  lemma {:induction false} ExecKeepsOk(w: World, events: seq<Event>)
    requires Ok(w)
    ensures Ok(Exec(w, events))
  {
    hide Step, Ok;
    if events != [] {
      ExecKeepsOk(w, events[..|events| - 1]);
      StepKeepsOk(Exec(w, events[..|events| - 1]), events[|events| - 1]);
    }
  }

  /** Two acquisitions are more than two hours apart; the later one is a reclaim, with no close between. */
  lemma AcquisitionsAreSpaced(midnight: nat, events: seq<Event>, i: nat, j: nat)
    requires var log := Exec(Fresh(midnight), events).log;
             i < j < |log| && log[i].Acquired? && log[j].Acquired?
    ensures var log := Exec(Fresh(midnight), events).log;
            && log[j].at > log[i].at + LOCK_TTL_MS
            && !log[j].byInsert
            && forall m :: 0 <= m < j ==> !log[m].Closed?
  {
    ExecKeepsOk(Fresh(midnight), events);
    var log := Exec(Fresh(midnight), events).log;
    assert log[j].call <= log[j].at;
  }

  /** So a job runs under the lock at most twelve times a day. */
  lemma AtMostTwelve(midnight: nat, events: seq<Event>)
    ensures Acquisitions(Exec(Fresh(midnight), events).log) <= 12
  {
    ExecKeepsOk(Fresh(midnight), events);
  }

  /**
   Once the row is done, failed or cleaned up, the day is over for this job: the start-up clean-up
   does not release the lock for a later run, whatever its comment says.
   */
  lemma {:induction false} ClosedForTheDay(w: World, events: seq<Event>)
    requires w.row.Some? && w.row.value.status != Started
    ensures var w' := Exec(w, events);
            w'.row.Some? && w'.row.value.status != Started && Acquisitions(w'.log) == Acquisitions(w.log)
  {
    hide Step, Acquisitions;
    if events != [] {
      var n := |events| - 1;
      ClosedForTheDay(w, events[..n]);
      StaysClosed(Exec(w, events[..n]), events[n]);
    }
  }

  lemma StaysClosed(w: World, e: Event)
    requires w.row.Some? && w.row.value.status != Started
    ensures var w' := Step(w, e);
            w'.row.Some? && w'.row.value.status != Started && Acquisitions(w'.log) == Acquisitions(w.log)
  {
    var log' := Step(w, e).log;
    assert log'[..|log'| - 1] == w.log;
  }

  predicate Reclaims(w: World, call: nat) {
    Concerns(w, call) && w.row.Some? && Stale(w.row.value, call)
  }

  /** The statements of one acquisition: the insert follows exactly when the reclaim took nothing. */
  function Attempt(w: World, call: nat, others: seq<Event>): seq<Event> {
    if Reclaims(w, call) then [Reclaim(call)] else [Reclaim(call)] + others + [Insert(call)]
  }

  /** An attempt takes the lock exactly when the row is stale at first, or missing at the insert. */
  lemma AttemptTakesIff(w: World, call: nat, others: seq<Event>)
    ensures var log := Exec(w, Attempt(w, call, others)).log;
            log != [] && (log[|log| - 1].Acquired?
                          <==> Reclaims(w, call)
                               || var late := Exec(Step(w, Reclaim(call)), others);
                                  Concerns(late, call) && late.row.None?)
  {
    assert [Reclaim(call)][..0] == [];
    assert Exec(w, [Reclaim(call)]) == Step(w, Reclaim(call));
    if !Reclaims(w, call) {
      var before := [Reclaim(call)] + others;
      ExecConcat(w, [Reclaim(call)], others);
      assert (before + [Insert(call)])[..|before|] == before;
    }
  }

  /** While the row is started, an attempt within the day takes it exactly when two hours have passed. */
  lemma StartedIsTakenIff(w: World, call: nat, others: seq<Event>)
    requires w.row.Some? && w.row.value.status == Started
    requires w.midnight <= call < w.midnight + 86_400_000 && call <= w.now
    ensures Reclaims(w, call) <==> w.row.value.startedAt + 7_200_000 < call
    ensures Reclaims(w, call) ==>
              var w' := Exec(w, Attempt(w, call, others));
              w'.row == Some(Row(Started, w.now)) && w'.log == w.log + [Acquired(call, w.now, false)]
  {
    assert [Reclaim(call)][..0] == [];
  }

  /** No statement that closes or reclaims the row. */
  predicate LeavesAlone(e: Event) {
    e.Insert? || e.Tick?
  }

  lemma {:induction false} CrashedRowStays(w: World, events: seq<Event>)
    requires w.row.Some? && forall i :: 0 <= i < |events| ==> LeavesAlone(events[i])
    ensures var w' := Exec(w, events);
            w'.row == w.row && w'.midnight == w.midnight && w'.now >= w.now
  {
    if events != [] {
      CrashedRowStays(w, events[..|events| - 1]);
    }
  }

  /**
   The row of a holder that crashed, with no clean-up and no other attempt meanwhile, is taken by
   the attempts called more than two hours after it started and before the day ends, and by no others.
   */
  lemma CrashedHolderIsReplaced(w: World, events: seq<Event>, call: nat, others: seq<Event>)
    requires w.row.Some? && w.row.value.status == Started
    requires forall i :: 0 <= i < |events| ==> LeavesAlone(events[i])
    requires w.midnight <= call <= Exec(w, events).now
    ensures var late := Exec(w, events);
            Reclaims(late, call) <==> w.row.value.startedAt + 7_200_000 < call < w.midnight + 86_400_000
    ensures var late := Exec(w, events);
            Reclaims(late, call) ==>
              var log := Exec(late, Attempt(late, call, others)).log;
              log == late.log + [Acquired(call, late.now, false)]
  {
    CrashedRowStays(w, events);
    var late := Exec(w, events);
    if call < w.midnight + 86_400_000 {
      StartedIsTakenIff(late, call, others);
    }
  }

  /** Done and fail close the row whoever holds it, done as done and fail as an error. */
  lemma FinishCloses(w: World, ok: bool)
    requires w.row.Some?
    ensures Step(w, Finish(ok)).row == Some(Row(if ok then Done else Error, w.row.value.startedAt))
  {}

  /** The start-up clean-up closes the row exactly when it has been running for more than five minutes. */
  lemma CleanupClosesIff(w: World)
    requires w.row.Some? && w.row.value.status == Started
    ensures Step(w, Cleanup).row.Some?
    ensures Step(w, Cleanup).row.value.status == Error <==> w.row.value.startedAt + 300_000 < w.now
  {}

  // ---- The code ---------------------------------------------------------------------

  class LockRow {
    const midnight: nat
    var now: nat
    var row: Option<Row>
    ghost var log: seq<Entry>

    ghost function View(): World
      reads this
    {
      World(midnight, now, row, log)
    }

    constructor (midnight: nat)
      ensures View() == Fresh(midnight)
    {
      this.midnight, now, row, log := midnight, midnight, None, [];
    }

    method TryReclaim(call: nat) returns (taken: bool)
      modifies this
      ensures View() == Step(old(View()), Reclaim(call))
      ensures taken == log[|log| - 1].Acquired?
    {
      if midnight <= call < midnight + DAY_MS && call <= now && row.Some?
         && row.value.status == Started && row.value.startedAt + LOCK_TTL_MS < call {
        row := Some(row.value.(startedAt := now));
        log := log + [Acquired(call, now, false)];
        return true;
      }
      log := log + [Idle];
      taken := false;
    }

    method TryInsert(call: nat) returns (taken: bool)
      modifies this
      ensures View() == Step(old(View()), Insert(call))
      ensures taken == log[|log| - 1].Acquired?
    {
      if midnight <= call < midnight + DAY_MS && call <= now && row.None? {
        row := Some(Row(Started, now));
        log := log + [Acquired(call, now, true)];
        return true;
      }
      log := log + [Idle];
      taken := false;
    }

    /** `acquireCronLock`; `others` is what runs between its two statements. */
    method Acquire(call: nat, others: seq<Event>) returns (taken: bool)
      modifies this
      ensures View() == Exec(old(View()), Attempt(old(View()), call, others))
      ensures taken == log[|log| - 1].Acquired?
    {
      ghost var w := View();
      taken := TryReclaim(call);
      assert [Reclaim(call)][..0] == [];
      if !taken {
        Others(others);
        ExecConcat(w, [Reclaim(call)], others);
        taken := TryInsert(call);
        ghost var before := [Reclaim(call)] + others;
        assert (before + [Insert(call)])[..|before|] == before;
      }
    }

    /** `done` and `fail` of any lock handed out for this row, however late. */
    method Close(ok: bool)
      modifies this
      ensures View() == Step(old(View()), Finish(ok))
    {
      if row.Some? {
        row := Some(row.value.(status := if ok then Done else Error));
        log := log + [Closed(now)];
      } else {
        log := log + [Idle];
      }
    }

    method CleanupStale()
      modifies this
      ensures View() == Step(old(View()), Cleanup)
    {
      if row.Some? && row.value.status == Started && row.value.startedAt + CLEANUP_MS < now {
        row := Some(row.value.(status := Error));
        log := log + [Closed(now)];
      } else {
        log := log + [Idle];
      }
    }

    method Others(events: seq<Event>)
      modifies this
      ensures View() == Exec(old(View()), events)
    {
      for i := 0 to |events|
        invariant View() == Exec(old(View()), events[..i])
      {
        assert events[..i + 1][..i] == events[..i];
        match events[i] {
          case Reclaim(call) => var _ := TryReclaim(call);
          case Insert(call) => var _ := TryInsert(call);
          case Finish(ok) => Close(ok);
          case Cleanup => CleanupStale();
          case Tick(ms) =>
            now := now + ms;
            log := log + [Idle];
        }
      }
      assert events[..|events|] == events;
    }
  }
}

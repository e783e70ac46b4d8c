/**
 The job scheduler: any number of `runJobSafely` coroutines that interleave at their awaits, over
 the in-process set of running jobs and the map of their start times, with the timer that prunes
 stuck entries. One step is what one coroutine or the timer does between two awaits.
 */
module Scheduler {
  import opened Common

  const JOB_TIMEOUT_MS: nat := 120_000

  type Job = string

  /** Which await a coroutine is suspended at. */
  datatype Await = Locking | Waiting | Relocking | Working | Closing | Failing

  /**
   How the awaited operation ends, `Nothing` being a lock that was not granted. With `Throws` it
   ends somehow and a log call that follows, in the `catch` block or outside any `try`, throws.
   */
  datatype Reply = Good | Nothing | Bad | Throws

  datatype Run = Run(job: Job, await: Await, since: nat)

  datatype World = World(now: nat, running: set<Job>, startedAt: map<Job, nat>, runs: map<nat, Run>)

  /** `throws` is a synchronous throw before the first await. */
  datatype Event =
    | Begin(id: nat, job: Job, locked: bool, throws: bool)
    | Resume(id: nat, reply: Reply)
    | Prune
    | Tick(ms: nat)

  const IDLE := World(0, {}, map[], map[])

  /** Where a coroutine goes next; None when it returns or throws. */
  function Next(await: Await, reply: Reply): Option<Await> {
    if reply == Throws then None
    else
      match await
      case Locking => if reply == Good then Some(Working) else if reply == Nothing then None else Some(Waiting)
      case Waiting => Some(Relocking)
      case Relocking => if reply == Nothing then None else Some(Working)
      case Working => if reply == Bad then Some(Failing) else Some(Closing)
      case Closing => if reply == Bad then Some(Failing) else None
      case Failing => None
  }

  /** A throw on the way on from an await before the `try` ends the coroutine without its `finally`. */
  predicate LeavesEntry(await: Await, reply: Reply) {
    reply == Throws && (await == Locking || await == Waiting || await == Relocking)
  }

  predicate Stuck(w: World, job: Job) {
    job in w.startedAt && w.now - w.startedAt[job] > 2 * JOB_TIMEOUT_MS
  }

  function Step(w: World, e: Event): World {
    match e
    case Begin(id, job, locked, throws) =>
      if job in w.running || id in w.runs then w
      else
        w.(running := w.running + {job}, startedAt := w.startedAt[job := w.now],
           runs := if throws then w.runs
                   else w.runs[id := Run(job, if locked then Locking else Working, w.now)])
    case Resume(id, reply) =>
      if id !in w.runs then w
      else
        var run := w.runs[id];
        var next := Next(run.await, reply);
        if next.Some? then w.(runs := w.runs[id := run.(await := next.value)])
        else if LeavesEntry(run.await, reply) then w.(runs := w.runs - {id})
        else w.(running := w.running - {run.job}, startedAt := w.startedAt - {run.job}, runs := w.runs - {id})
    case Prune =>
      var stuck := set job | job in w.startedAt && Stuck(w, job);
      w.(running := w.running - stuck, startedAt := w.startedAt - stuck)
    case Tick(ms) => w.(now := w.now + ms)
  }

  function Exec(w: World, events: seq<Event>): World {
    if events == [] then w
    else Step(Exec(w, events[..|events| - 1]), events[|events| - 1])
  }

  /** At every await, whatever has happened, the set and the map are about the same jobs. */
  lemma {:induction false} BookkeepingAgrees(events: seq<Event>)
    ensures var w := Exec(IDLE, events);
            w.running == w.startedAt.Keys
  {
    if events != [] {
      BookkeepingAgrees(events[..|events| - 1]);
    }
  }

  /** Every live coroutine has its entry, with its own start time, and no job has two of them. */
  ghost predicate Covered(w: World) {
    && (forall id :: id in w.runs ==> HasEntry(w, w.runs[id]))
    && (forall job :: job in w.startedAt ==> w.startedAt[job] <= w.now)
    && w.running == w.startedAt.Keys
    && NoOverlap(w)
  }

  predicate HasEntry(w: World, run: Run) {
    run.job in w.startedAt && w.startedAt[run.job] == run.since
  }

  ghost predicate NoOverlap(w: World) {
    forall id, id' :: id in w.runs && id' in w.runs && w.runs[id].job == w.runs[id'].job ==> id == id'
  }

  ghost predicate Live(w: World, job: Job) {
    exists id :: id in w.runs && w.runs[id].job == job
  }

  /** The bookkeeping is exact: there is also no entry without a live coroutine. */
  ghost predicate Exact(w: World) {
    Covered(w) && forall job :: job in w.running ==> Live(w, job)
  }

  /** A live coroutine that the prune timer would take for stuck. */
  ghost predicate Overdue(w: World) {
    exists id :: id in w.runs && w.now - w.runs[id].since > 2 * JOB_TIMEOUT_MS
  }

  // ---- The course of one coroutine --------------------------------------------------

  /** How the awaits of coroutine `id` ended in this run, in order. */
  function Replies(events: seq<Event>, id: nat): seq<Reply> {
    if events == [] then []
    else
      var e := events[|events| - 1];
      Replies(events[..|events| - 1], id) + if e.Resume? && e.id == id then [e.reply] else []
  }

  /** Where replies lead from an await; None when the coroutine is over. */
  function Course(await: Await, replies: seq<Reply>): Option<Await> {
    if replies == [] then Some(await)
    else
      var n := |replies| - 1;
      var before := Course(await, replies[..n]);
      if before.None? then None else Next(before.value, replies[n])
  }

  /** No other coroutine is given the number `id`. */
  predicate NeverBegins(events: seq<Event>, id: nat) {
    forall i :: 0 <= i < |events| && events[i].Begin? ==> events[i].id != id
  }

  /** Whatever the others and the timer do, a coroutine goes where its own replies lead. */
  lemma {:induction false} CourseOfRun(w: World, events: seq<Event>, id: nat)
    requires id in w.runs && NeverBegins(events, id)
    ensures var w' := Exec(w, events);
            var await := Course(w.runs[id].await, Replies(events, id));
            && (id in w'.runs <==> await.Some?)
            && (id in w'.runs ==> w'.runs[id] == w.runs[id].(await := await.value))
  {
    if events != [] {
      var n := |events| - 1;
      CourseOfRun(w, events[..n], id);
      var replies := Replies(events[..n], id);
      if events[n].Resume? && events[n].id == id {
        assert (replies + [events[n].reply])[..|replies|] == replies;
      } else {
        assert replies + [] == replies;
      }
      hide Next, Exec;
      CourseStep(Exec(w, events[..n]), events[n], id);
    }
  }

  lemma CourseStep(w: World, e: Event, id: nat)
    requires e.Begin? ==> e.id != id
    ensures id !in w.runs ==> id !in Step(w, e).runs
    ensures id in w.runs && !(e.Resume? && e.id == id) ==> id in Step(w, e).runs && Step(w, e).runs[id] == w.runs[id]
    ensures id in w.runs && e.Resume? && e.id == id ==>
              var next := Next(w.runs[id].await, e.reply);
              && (id in Step(w, e).runs <==> next.Some?)
              && (next.Some? ==> Step(w, e).runs[id] == w.runs[id].(await := next.value))
  {}

  lemma {:induction false} OverIsOver(await: Await, replies: seq<Reply>, n: nat)
    requires n <= |replies| && Course(await, replies[..n]).None?
    ensures Course(await, replies).None?
  {
    if n == |replies| {
      assert replies[..n] == replies;
    } else {
      assert replies[..|replies| - 1][..n] == replies[..n];
      OverIsOver(await, replies[..|replies| - 1], n);
    }
  }

  /** Whatever follows, a coroutine that is not given the lock never gets to its job. */
  lemma NoLockNoWork(w: World, events: seq<Event>, id: nat)
    requires id in w.runs && w.runs[id].await == Locking && NeverBegins(events, id)
    requires var r := Replies(events, id);
             (|r| >= 1 && r[0] == Nothing) || (|r| >= 3 && r[0] == Bad && r[1] != Throws && r[2] == Nothing)
    ensures id !in Exec(w, events).runs
  {
    CourseOfRun(w, events, id);
    var r := Replies(events, id);
    if r[0] == Nothing {
      CourseOne(Locking, r);
      OverIsOver(Locking, r, 1);
    } else {
      CourseThree(Locking, r);
      OverIsOver(Locking, r, 3);
    }
  }

  lemma CourseOne(await: Await, r: seq<Reply>)
    requires |r| >= 1
    ensures Course(await, r[..1]) == Next(await, r[0])
  {
    assert r[..1][..0] == [];
  }

  lemma CourseTwo(await: Await, r: seq<Reply>)
    requires |r| >= 2 && Next(await, r[0]).Some?
    ensures Course(await, r[..2]) == Next(Next(await, r[0]).value, r[1])
  {
    CourseOne(await, r);
    assert r[..2][..1] == r[..1];
  }

  lemma CourseThree(await: Await, r: seq<Reply>)
    requires |r| >= 3
    requires Next(await, r[0]).Some? && Next(Next(await, r[0]).value, r[1]).Some?
    ensures Course(await, r[..3]) == Next(Next(Next(await, r[0]).value, r[1]).value, r[2])
  {
    CourseTwo(await, r);
    assert r[..3][..2] == r[..2];
  }

  /** A coroutine works once it has the lock, or once two attempts at it have failed. */
  lemma LockOrTwoFailuresWork(w: World, events: seq<Event>, id: nat)
    requires id in w.runs && w.runs[id].await == Locking && NeverBegins(events, id)
    ensures var r := Replies(events, id);
            r == [Good] || (|r| == 3 && r[0] == Bad && r[1] != Throws && (r[2] == Good || r[2] == Bad))
            ==> id in Exec(w, events).runs && Exec(w, events).runs[id].await == Working
    ensures Replies(events, id) == [Bad] ==> id in Exec(w, events).runs && Exec(w, events).runs[id].await == Waiting
  {
    CourseOfRun(w, events, id);
    var r := Replies(events, id);
    hide Exec, Replies, Course;
    if |r| == 1 {
      assert r[..1] == r;
      CourseOne(Locking, r);
    } else if |r| == 3 && r[0] == Bad && r[1] != Throws {
      assert r[..3] == r;
      CourseThree(Locking, r);
    }
  }

  /** A job that ends well is recorded as done, one that fails as failed, and then the coroutine is over. */
  lemma WorkIsRecorded(w: World, events: seq<Event>, id: nat)
    requires id in w.runs && w.runs[id].await == Working && NeverBegins(events, id)
    ensures var r := Replies(events, id);
            var w' := Exec(w, events);
            && (r == [Good] ==> id in w'.runs && w'.runs[id].await == Closing)
            && (r == [Bad] ==> id in w'.runs && w'.runs[id].await == Failing)
            && (r == [Good, Bad] ==> id in w'.runs && w'.runs[id].await == Failing)
            && (r == [Good, Good] || r == [Bad, Good] || r == [Bad, Bad] ==> id !in w'.runs)
  {
    hide *;
    CourseOfRun(w, events, id);
    CourseOfWork(Replies(events, id));
  }

  lemma CourseOfWork(r: seq<Reply>)
    ensures r == [Good] ==> Course(Working, r) == Some(Closing)
    ensures r == [Bad] || r == [Good, Bad] ==> Course(Working, r) == Some(Failing)
    ensures r == [Good, Good] || r == [Bad, Good] || r == [Bad, Bad] ==> Course(Working, r) == None
  {
    hide Course;
    if |r| == 1 {
      CourseOne(Working, r);
      assert r[..1] == r;
    } else if |r| == 2 && Next(Working, r[0]).Some? {
      CourseTwo(Working, r);
      assert r[..2] == r;
    }
  }

  // ---- No overlap -------------------------------------------------------------------

  lemma PruneStaysCoveredIff(w: World)
    requires Covered(w)
    ensures Covered(Step(w, Prune)) <==> !Overdue(w)
  {
    var w' := Step(w, Prune);
    if Overdue(w) {
      var id :| id in w.runs && w.now - w.runs[id].since > 2 * JOB_TIMEOUT_MS;
      assert HasEntry(w, w.runs[id]) && Stuck(w, w.runs[id].job);
      assert id in w'.runs && !HasEntry(w', w'.runs[id]);
    }
  }

  /** One step breaks that exactly when it prunes while a coroutine is overdue; throws do not. */
  lemma StepStaysCoveredIff(w: World, e: Event)
    requires Covered(w)
    ensures Covered(Step(w, e)) <==> !(e == Prune && Overdue(w))
  {
    if e == Prune {
      PruneStaysCoveredIff(w);
    }
  }

  /** Whenever the timer fires, every live run is within twice the timeout. */
  ghost predicate RunsEndInTime(events: seq<Event>) {
    forall i :: 0 <= i < |events| && events[i] == Prune ==> !Overdue(Exec(IDLE, events[..i]))
  }

  lemma EndInTimePrefix(events: seq<Event>, n: nat)
    requires RunsEndInTime(events) && n <= |events|
    ensures RunsEndInTime(events[..n])
  {
    hide Exec, Overdue;
    forall i | 0 <= i < n && events[..n][i] == Prune ensures !Overdue(Exec(IDLE, events[..n][..i])) {
      assert events[..n][..i] == events[..i];
    }
  }

  /** Then no two runs of a job ever overlap, whoever throws. */
  lemma {:induction false} NoTwoRunsOverlap(events: seq<Event>)
    requires RunsEndInTime(events)
    ensures Covered(Exec(IDLE, events))
  {
    hide Step, Overdue;
    if events != [] {
      var n := |events| - 1;
      EndInTimePrefix(events, n);
      NoTwoRunsOverlap(events[..n]);
      StepStaysCoveredIff(Exec(IDLE, events[..n]), events[n]);
    }
  }

  // ---- Entries without a run --------------------------------------------------------

  /** A throw outside the `try`, by a coroutine that has made its entry. */
  predicate Leaks(w: World, e: Event) {
    match e
    case Begin(id, job, _, throws) => throws && job !in w.running && id !in w.runs
    case Resume(id, reply) => id in w.runs && LeavesEntry(w.runs[id].await, reply)
    case _ => false
  }

  lemma ThrowLeaks(w: World, e: Event)
    requires Exact(w) && Leaks(w, e)
    ensures !Exact(Step(w, e))
  {
    var w' := Step(w, e);
    var job := if e.Begin? then e.job else w.runs[e.id].job;
    assert job in w'.running && !Live(w', job);
  }

  lemma BeginStaysExact(w: World, id: nat, job: Job, locked: bool)
    requires Exact(w)
    ensures Exact(Step(w, Begin(id, job, locked, false)))
  {
    var e := Begin(id, job, locked, false);
    var w' := Step(w, e);
    StepStaysCoveredIff(w, e);
    hide Covered;
    if job !in w.running && id !in w.runs {
      forall job' | job' in w'.running ensures Live(w', job') {
        if job' == job {
          assert w'.runs[id].job == job;
        } else {
          assert Live(w, job');
          var i :| i in w.runs && w.runs[i].job == job';
          assert w'.runs[i].job == job';
        }
      }
    }
  }

  lemma ResumeStaysExact(w: World, id: nat, reply: Reply)
    requires Exact(w) && !Leaks(w, Resume(id, reply))
    ensures Exact(Step(w, Resume(id, reply)))
  {
    hide Next;
    var w' := Step(w, Resume(id, reply));
    StepStaysCoveredIff(w, Resume(id, reply));
    hide Covered;
    if id in w.runs {
      forall job | job in w'.running ensures Live(w', job) {
        assert Live(w, job);
        var i :| i in w.runs && w.runs[i].job == job;
        assert i in w'.runs && w'.runs[i].job == job;
      }
    }
  }

  lemma PruneStaysExact(w: World)
    requires Exact(w) && !Overdue(w)
    ensures Step(w, Prune) == w
  {
    var w' := Step(w, Prune);
    forall job | job in w.startedAt ensures !Stuck(w, job) {
      assert Live(w, job);
      var id :| id in w.runs && w.runs[id].job == job;
      assert HasEntry(w, w.runs[id]);
    }
    assert w'.running == w.running && w'.startedAt == w.startedAt;
  }

  /** One step breaks exactness exactly when it throws outside the `try` or prunes an overdue run. */
  lemma StepStaysExactIff(w: World, e: Event)
    requires Exact(w)
    ensures Exact(Step(w, e)) <==> !Leaks(w, e) && !(e == Prune && Overdue(w))
  {
    if Leaks(w, e) {
      ThrowLeaks(w, e);
    } else {
      match e {
        case Begin(id, job, locked, throws) =>
          if !throws {
            BeginStaysExact(w, id, job, locked);
          }
        case Resume(id, reply) => ResumeStaysExact(w, id, reply);
        case Prune =>
          PruneStaysCoveredIff(w);
          if !Overdue(w) {
            PruneStaysExact(w);
          }
        case Tick(ms) =>
          forall job | job in w.running ensures Live(Step(w, e), job) {
            assert Live(w, job);
          }
      }
    }
  }

  ghost predicate NeverThrows(events: seq<Event>) {
    forall i :: 0 <= i < |events| ==> !Leaks(Exec(IDLE, events[..i]), events[i])
  }

  /** Without throws and overdue runs, a job is marked as running exactly while a run of it is live. */
  lemma {:induction false} NoJobIsBlocked(events: seq<Event>)
    requires RunsEndInTime(events) && NeverThrows(events)
    ensures Exact(Exec(IDLE, events))
  {
    hide Step, Overdue, Leaks;
    if events != [] {
      var n := |events| - 1;
      EndInTimePrefix(events, n);
      forall i | 0 <= i < n ensures !Leaks(Exec(IDLE, events[..n][..i]), events[..n][i]) {
        assert events[..n][..i] == events[..i];
      }
      NoJobIsBlocked(events[..n]);
      StepStaysExactIff(Exec(IDLE, events[..n]), events[n]);
    }
  }

  /**
   A way out of a coroutine clears its job's entry exactly when it is not a throw outside the
   `try`; a throw in the `catch` block clears it.
   */
  lemma ExitClearsIff(w: World, id: nat, e: Event)
    requires Covered(w) && id in w.runs && id !in Step(w, e).runs
    ensures var w' := Step(w, e);
            e.Resume? && (w.runs[id].job !in w'.running && w.runs[id].job !in w'.startedAt
                          <==> !LeavesEntry(w.runs[id].await, e.reply))
  {
    assert HasEntry(w, w.runs[id]);
  }

  /** The entry of `job`, made at `t`, with no live coroutine behind it. */
  ghost predicate Leaked(w: World, job: Job, t: nat) {
    job in w.running && job in w.startedAt && w.startedAt[job] == t && !Live(w, job)
  }

  /** The timer has fired more than four minutes, twice the timeout, after `t`. */
  ghost predicate Pruned(w: World, events: seq<Event>, t: nat) {
    exists i :: 0 <= i < |events| && events[i] == Prune && Exec(w, events[..i]).now - t > 240_000
  }

  /** The entry made at `t` is gone for good. */
  predicate Cleared(w: World, job: Job, t: nat) {
    w.now > t && (job in w.startedAt ==> w.startedAt[job] > t)
  }

  lemma LeakStep(w: World, e: Event, job: Job, t: nat)
    requires Leaked(w, job, t)
    ensures var due := e == Prune && w.now - t > 240_000;
            && (!due ==> Leaked(Step(w, e), job, t))
            && (due ==> Cleared(Step(w, e), job, t) && job !in Step(w, e).running)
    ensures e.Begin? && e.job == job ==> Step(w, e) == w
  {
    hide Next;
    var w' := Step(w, e);
    forall id | id in w'.runs ensures w'.runs[id].job != job {
      assert id in w.runs ==> w.runs[id].job != job;
    }
  }

  lemma ClearedStep(w: World, e: Event, job: Job, t: nat)
    requires Cleared(w, job, t)
    ensures Cleared(Step(w, e), job, t)
  {
    hide Next;
  }

  lemma PrunedLast(w: World, events: seq<Event>, t: nat)
    requires events != []
    ensures var n := |events| - 1;
            Pruned(w, events, t) <==>
            Pruned(w, events[..n], t) || (events[n] == Prune && Exec(w, events[..n]).now - t > 240_000)
  {
    hide Exec;
    var n := |events| - 1;
    assert forall i :: 0 <= i < n ==> events[..n][i] == events[i] && events[..n][..i] == events[..i];
    if Pruned(w, events[..n], t) {
      var i :| 0 <= i < n && events[..n][i] == Prune && Exec(w, events[..n][..i]).now - t > 240_000;
      assert events[i] == Prune && Exec(w, events[..i]).now - t > 240_000;
    }
  }

  /**
   A leaked entry blocks its job, every start of it being skipped, until the timer first fires
   more than twice the timeout after the entry was made, and never after that.
   */
  lemma {:induction false} LeakBlocksUntilPruned(w: World, events: seq<Event>, job: Job, t: nat)
    requires Leaked(w, job, t)
    ensures !Pruned(w, events, t) ==> Leaked(Exec(w, events), job, t)
    ensures Pruned(w, events, t) ==> Cleared(Exec(w, events), job, t) && !Leaked(Exec(w, events), job, t)
  {
    hide Step, Pruned, Leaked;
    if events == [] {
      NothingPruned(w, t);
    } else {
      var n := |events| - 1;
      LeakBlocksUntilPruned(w, events[..n], job, t);
      PrunedLast(w, events, t);
      if Pruned(w, events[..n], t) {
        ClearedStep(Exec(w, events[..n]), events[n], job, t);
      } else {
        LeakStep(Exec(w, events[..n]), events[n], job, t);
      }
      if Pruned(w, events, t) {
        ClearedIsNotLeaked(Exec(w, events), job, t);
      }
    }
  }

  lemma NothingPruned(w: World, t: nat)
    ensures !Pruned(w, [], t)
  {}

  lemma ClearedIsNotLeaked(w: World, job: Job, t: nat)
    requires Cleared(w, job, t)
    ensures !Leaked(w, job, t)
  {}

  /** Pruning an overdue run lets a second run of the same job start beside it. */
  lemma PruneAdmitsOverlap(w: World, a: nat, b: nat, locked: bool, reply: Reply)
    requires Covered(w) && a in w.runs && b !in w.runs
    requires w.now - w.runs[a].since > 2 * JOB_TIMEOUT_MS
    ensures var w' := Step(Step(w, Prune), Begin(b, w.runs[a].job, locked, false));
            a in w'.runs && b in w'.runs && w'.runs[b].job == w'.runs[a].job && !NoOverlap(w')
    // and when the first run ends in its `finally`, that clears the entry of the second, which is still live
    ensures var w' := Step(Step(Step(w, Prune), Begin(b, w.runs[a].job, locked, false)), Resume(a, reply));
            Next(w.runs[a].await, reply).None? && !LeavesEntry(w.runs[a].await, reply)
            ==> b in w'.runs && w'.runs[b].job !in w'.running
  {
    hide Next;
    var job := w.runs[a].job;
    assert HasEntry(w, w.runs[a]) && Stuck(w, job);
    var w1 := Step(w, Prune);
    assert job !in w1.running && w1.runs == w.runs;
    var w2 := Step(w1, Begin(b, job, locked, false));
    assert w2.runs[a].job == job && w2.runs[b].job == job;
  }

  // ---- The code ---------------------------------------------------------------------

  class Registry {
    var now: nat
    var running: set<Job>
    var startedAt: map<Job, nat>
    var runs: map<nat, Run>  // the suspended coroutines

    ghost function View(): World
      reads this
    {
      World(now, running, startedAt, runs)
    }

    constructor ()
      ensures View() == IDLE
    {
      now, running, startedAt, runs := 0, {}, map[], map[];
    }

    /** The start of `runJobSafely`, up to its first await or a throw before it. */
    method BeginRun(id: nat, job: Job, locked: bool, throws: bool) returns (skipped: bool)
      requires id !in runs
      modifies this
      ensures View() == Step(old(View()), Begin(id, job, locked, throws))
      ensures skipped == (job in old(running))
    {
      if job in running {
        return true;
      }
      running := running + {job};
      startedAt := startedAt[job := now];
      if !throws {
        runs := runs[id := Run(job, if locked then Locking else Working, now)];
      }
      skipped := false;
    }

    /** The rest of `runJobSafely`, from the await that has just settled to the next one. */
    method ResumeRun(id: nat, reply: Reply)
      requires id in runs
      modifies this
      ensures View() == Step(old(View()), Resume(id, reply))
    {
      var run := runs[id];
      match run.await {
        case Locking =>
          match reply {
            case Good => Suspend(id, Working);
            case Nothing => Exit(id);
            case Bad => Suspend(id, Waiting);
            case Throws => Abandon(id);
          }
        case Waiting =>
          if reply == Throws {
            Abandon(id);
          } else {
            Suspend(id, Relocking);
          }
        case Relocking =>
          match reply {
            case Nothing => Exit(id);
            case Throws => Abandon(id);
            case _ => Suspend(id, Working);
          }
        case Working =>
          if reply == Throws {
            Exit(id);
          } else {
            Suspend(id, if reply == Bad then Failing else Closing);
          }
        case Closing =>
          if reply == Bad {
            Suspend(id, Failing);
          } else {
            Exit(id);
          }
        case Failing => Exit(id);
      }
    }

    method Suspend(id: nat, next: Await)
      requires id in runs
      modifies this`runs
      ensures runs == old(runs)[id := old(runs)[id].(await := next)]
    {
      runs := runs[id := runs[id].(await := next)];
    }

    /** A throw outside the `try`: nothing is left to clear the entry. */
    method Abandon(id: nat)
      requires id in runs
      modifies this`runs
      ensures runs == old(runs) - {id}
    {
      runs := runs - {id};
    }

    method Exit(id: nat)
      requires id in runs
      modifies this
      ensures now == old(now) && runs == old(runs) - {id}
      ensures running == old(running) - {old(runs)[id].job} && startedAt == old(startedAt) - {old(runs)[id].job}
    {
      var job := runs[id].job;
      running := running - {job};
      startedAt := startedAt - {job};
      runs := runs - {id};
    }

    /** The timer: drops every entry older than twice the timeout. */
    method PruneStuck()
      modifies this
      ensures View() == Step(old(View()), Prune)
    {
      var rest := startedAt.Keys;
      ghost var stuck := set job | job in startedAt && Stuck(View(), job);
      ghost var w := View();
      ghost var seen: set<Job> := {};
      while rest != {}
        invariant rest !! seen && rest + seen == w.startedAt.Keys
        invariant now == w.now && runs == w.runs
        invariant running == w.running - (stuck * seen)
        invariant startedAt == w.startedAt - (stuck * seen)
        decreases rest
      {
        var job :| job in rest;
        if now - startedAt[job] > 2 * JOB_TIMEOUT_MS {
          running := running - {job};
          startedAt := startedAt - {job};
        }
        rest := rest - {job};
        seen := seen + {job};
      }
      assert stuck * seen == stuck;
    }
  }
}

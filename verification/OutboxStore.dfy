/** The code that drives the outbox: enqueueing, claiming, marking and the replay loop. */
module OutboxStore {
  import opened Common
  import opened Outbox

  /** What a worker remembers of its claim. */
  datatype Item = Item(id: nat, key: Key, attempt: nat, maxAttempts: nat, token: nat)

  /**
   What happens around one round of the replay loop: other clients before the claim and during
   the replay, the rows locked by concurrent claims, whether the replay works, and the fates of
   the claim and of the two marks.
   */
  datatype Round = Round(
    before: seq<Event>, locked: set<Key>, during: seq<Event>,
    works: bool, claiming: Fate, completing: Fate, failing: Fate)

  datatype Ending = EndedCompleted | EndedFailed | EndedDead | EndedThrowing

  datatype Tally = Tally(claimed: nat, completed: nat, failed: nat, dead: nat)

  /** Whether the loop goes on, or why not; after the two throws the caller gets the exception. */
  datatype Stop = GoesOn | NothingDue | ClaimThrew | MarkThrew

  function BoundedLimit(limit: int): (n: nat)
    ensures 1 <= n <= 100 && (1 <= limit <= 100 ==> n == limit)
    ensures limit < 1 ==> n == 1
    ensures limit > 100 ==> n == 100
  {
    Max(1, Min(100, limit))
  }

  /** The marks one round sends for its claim: the completing one, then the failing one if that threw. */
  function Marks(token: nat, round: Round): seq<Event> {
    (if !round.works then [] else if round.completing == RollsBack then [Abort] else [Complete(token)])
    + (if round.works && round.completing == Commits then []
       else if round.failing == RollsBack then [Abort]
       else [Fail(token)])
  }

  function EndingOf(round: Round, attempt: nat, maxAttempts: nat): Ending {
    if round.works && round.completing == Commits then EndedCompleted
    else if round.failing != Commits then EndedThrowing
    else if attempt >= maxAttempts then EndedDead
    else EndedFailed
  }

  function Counted(t: Tally, ending: Ending): Tally {
    match ending
    case EndedCompleted => t.(claimed := t.claimed + 1, completed := t.completed + 1)
    case EndedFailed => t.(claimed := t.claimed + 1, failed := t.failed + 1)
    case EndedDead => t.(claimed := t.claimed + 1, dead := t.dead + 1)
    case EndedThrowing => t.(claimed := t.claimed + 1)
  }

  predicate Due(a: Row, b: Row) {
    a.nextAttemptAt < b.nextAttemptAt || (a.nextAttemptAt == b.nextAttemptAt && a.createdAt <= b.createdAt)
  }

  /** The item came from a claim in the log. */
  predicate Issued(log: seq<Entry>, item: Item) {
    item.token < |log| && log[item.token].Claimed?
    && log[item.token].id == item.id && log[item.token].key == item.key
    && log[item.token].attempt == item.attempt && log[item.token].maxAttempts == item.maxAttempts
  }

  lemma {:induction false} LogGrows(w: World, events: seq<Event>)
    ensures w.log <= Exec(w, events).log
  {
    if events != [] {
      LogGrows(w, events[..|events| - 1]);
    }
  }

  lemma ExecNothing(w: World)
    ensures Exec(w, []) == w
  {}

  // ---- What the replay loop does ----------------------------------------------------

  /** An answer of the claim query: the row that has been due longest among the claimable unlocked ones. */
  ghost predicate IsPick(w: World, locked: set<Key>, pick: Option<Key>) {
    match pick
    case None => forall k :: k in w.rows && k !in locked ==> !Claimable(w.rows[k], w.now)
    case Some(key) =>
      && key in w.rows && key !in locked && Claimable(w.rows[key], w.now)
      && forall k :: k in w.rows && k !in locked && Claimable(w.rows[k], w.now) ==> Due(w.rows[key], w.rows[k])
  }

  /** The claim query's answer, if it was asked at all. */
  ghost predicate Answered(w: World, round: Round, pick: Option<Key>) {
    round.claiming != RollsBack ==> IsPick(w, round.locked, pick)
  }

  /** How far the loop is: the world, the events that led there, its own tokens, its counters. */
  datatype Progress = Progress(world: World, trace: seq<Event>, tokens: seq<nat>, tally: Tally, stop: Stop)

  /** One round; a claim that throws may have taken its row, which then waits for the lease to end. */
  function PlayRound(p: Progress, round: Round, pick: Option<Key>): Progress {
    var w := Exec(p.world, round.before);
    var claim := if round.claiming == RollsBack || pick.None? then Abort else Claim(pick.value);
    if round.claiming != Commits || pick.None? || pick.value !in w.rows then
      p.(world := Step(w, claim), trace := p.trace + round.before + [claim],
         stop := if round.claiming == Commits then NothingDue else ClaimThrew)
    else
      var key, row, token := pick.value, w.rows[pick.value], |w.log|;
      var ending := EndingOf(round, row.attempts + 1, row.maxAttempts);
      Progress(
        Exec(Exec(Step(w, claim), round.during), Marks(token, round)),
        p.trace + round.before + [claim] + round.during + Marks(token, round),
        p.tokens + [token], Counted(p.tally, ending), if ending == EndedThrowing then MarkThrew else GoesOn)
  }

  /** The first rounds of the loop, given what their claim queries answered. */
  function Play(w: World, rounds: seq<Round>, picks: seq<Option<Key>>): Progress
    requires |picks| <= |rounds|
  {
    if picks == [] then Progress(w, [], [], Tally(0, 0, 0, 0), GoesOn)
    else
      var n := |picks| - 1;
      PlayRound(Play(w, rounds, picks[..n]), rounds[n], picks[n])
  }

  /** The world in which the claim query of round `i` runs. */
  function Asked(w: World, rounds: seq<Round>, picks: seq<Option<Key>>, i: nat): World
    requires i < |picks| <= |rounds|
  {
    Exec(Play(w, rounds, picks[..i]).world, rounds[i].before)
  }

  /** Each round was reached, and its claim query answered correctly. */
  ghost predicate Played(w: World, rounds: seq<Round>, picks: seq<Option<Key>>) {
    && |picks| <= |rounds|
    && (forall i :: 0 <= i < |picks| ==> Play(w, rounds, picks[..i]).stop == GoesOn)
    && (forall i :: 0 <= i < |picks| ==> Answered(Asked(w, rounds, picks, i), rounds[i], picks[i]))
  }

  lemma PlayedPrefix(w: World, rounds: seq<Round>, picks: seq<Option<Key>>, n: nat)
    requires Played(w, rounds, picks) && n <= |picks|
    ensures Played(w, rounds, picks[..n])
  {
    hide Play, Answered, Exec;
    forall i | 0 <= i < n
      ensures Play(w, rounds, picks[..n][..i]).stop == GoesOn
              && Answered(Asked(w, rounds, picks[..n], i), rounds[i], picks[..n][i])
    {
      assert picks[..n][..i] == picks[..i];
      assert Asked(w, rounds, picks[..n], i) == Asked(w, rounds, picks, i);
    }
  }

  lemma LastRound(w: World, rounds: seq<Round>, picks: seq<Option<Key>>)
    requires Played(w, rounds, picks) && picks != []
    ensures |picks| <= |rounds|
    ensures var n := |picks| - 1;
            var p := Play(w, rounds, picks[..n]);
            && Played(w, rounds, picks[..n]) && p.stop == GoesOn
            && Answered(Exec(p.world, rounds[n].before), rounds[n], picks[n])
            && Play(w, rounds, picks) == PlayRound(p, rounds[n], picks[n])
  {
    hide Exec, Answered, PlayRound;
    var n := |picks| - 1;
    PlayedPrefix(w, rounds, picks, n);
    assert Answered(Asked(w, rounds, picks, n), rounds[n], picks[n]);
  }

  lemma PlayedExtends(w: World, rounds: seq<Round>, picks: seq<Option<Key>>, pick: Option<Key>)
    requires Played(w, rounds, picks) && |picks| < |rounds| && Play(w, rounds, picks).stop == GoesOn
    requires Answered(Exec(Play(w, rounds, picks).world, rounds[|picks|].before), rounds[|picks|], pick)
    ensures Played(w, rounds, picks + [pick])
  {
    hide Play, Answered, Exec;
    var all := picks + [pick];
    forall i | 0 <= i < |all|
      ensures Play(w, rounds, all[..i]).stop == GoesOn && Answered(Asked(w, rounds, all, i), rounds[i], all[i])
    {
      assert all[..i] == picks[..i];
      if i < |picks| {
        assert Asked(w, rounds, all, i) == Asked(w, rounds, picks, i);
      } else {
        assert picks[..i] == picks;
      }
    }
  }

  /** A pick has been due no less long than any other unlocked row that can be claimed; older rows go first. */
  lemma PickIsLongestDue(w: World, locked: set<Key>, key: Key, other: Key)
    requires IsPick(w, locked, Some(key))
    requires other in w.rows && other !in locked && Claimable(w.rows[other], w.now)
    ensures var a, b := w.rows[key], w.rows[other];
            a.nextAttemptAt < b.nextAttemptAt || (a.nextAttemptAt == b.nextAttemptAt && a.createdAt <= b.createdAt)
  {}

  /** What each round adds to the counters, and when the loop stops. */
  lemma RoundCounts(p: Progress, round: Round, key: Key)
    requires Ok(p.world) && round.claiming == Commits
    requires IsPick(Exec(p.world, round.before), round.locked, Some(key))
    ensures var earlier := Exec(p.world, round.before).rows[key].attempts;
            var done := round.works && round.completing == Commits;
            var threw := !done && round.failing != Commits;
            var t, t' := p.tally, PlayRound(p, round, Some(key)).tally;
            && t'.claimed == t.claimed + 1
            && t'.completed == t.completed + (if done then 1 else 0)
            && t'.dead == t.dead + (if !done && !threw && earlier == 7 then 1 else 0)
            && t'.failed == t.failed + (if !done && !threw && earlier < 7 then 1 else 0)
            && PlayRound(p, round, Some(key)).stop == if threw then MarkThrew else GoesOn
  {
    hide Ok, Exec, Due, Marks;
    ExecKeepsOk(p.world, round.before);
    RowFacts(Exec(p.world, round.before), key);
  }

  /** A round that claims nothing ends the loop: there was nothing to claim, or the claim threw. */
  lemma RoundStops(p: Progress, round: Round, pick: Option<Key>)
    requires Answered(Exec(p.world, round.before), round, pick) && (round.claiming != Commits || pick.None?)
    ensures var w := Exec(p.world, round.before);
            var q := PlayRound(p, round, pick);
            && q.tally == p.tally && q.tokens == p.tokens
            && (q.stop == ClaimThrew <==> round.claiming != Commits)
            && (q.stop == NothingDue <==> round.claiming == Commits)
            && (q.stop == NothingDue ==> forall k :: k in w.rows && k !in round.locked ==> !Claimable(w.rows[k], w.now))
  {}

  /** The database effects of the loop are a run of the protocol. */
  lemma {:induction false} PlayIsARun(w: World, rounds: seq<Round>, picks: seq<Option<Key>>)
    requires |picks| <= |rounds|
    ensures Play(w, rounds, picks).world == Exec(w, Play(w, rounds, picks).trace)
  {
    hide Step, Exec, Marks, EndingOf;
    if picks == [] {
      ExecNothing(w);
    } else {
      var n := |picks| - 1;
      var p, round := Play(w, rounds, picks[..n]), rounds[n];
      PlayIsARun(w, rounds, picks[..n]);
      ExecConcat(w, p.trace, round.before);
      var asked := p.trace + round.before;
      var claim := if round.claiming == RollsBack || picks[n].None? then Abort else Claim(picks[n].value);
      ExtendTrace(w, asked, claim);
      if round.claiming == Commits && picks[n].Some? && picks[n].value in Exec(w, asked).rows {
        ExecConcat(w, asked + [claim], round.during);
        ExecConcat(w, asked + [claim] + round.during, Marks(|Exec(w, asked).log|, round));
      }
    }
  }

  /** Every claim is counted once, except one whose failure mark threw and ended the loop. */
  lemma {:induction false} EveryClaimIsCounted(w: World, rounds: seq<Round>, picks: seq<Option<Key>>)
    requires Played(w, rounds, picks)
    ensures var p := Play(w, rounds, picks);
            && |p.tokens| == p.tally.claimed <= |picks|
            && p.tally.completed + p.tally.failed + p.tally.dead
               == p.tally.claimed - (if p.stop == MarkThrew then 1 else 0)
  {
    hide Step, Exec, Answered, Marks, EndingOf, Played;
    if picks != [] {
      LastRound(w, rounds, picks);
      EveryClaimIsCounted(w, rounds, picks[..|picks| - 1]);
    }
  }

  /** The tokens are claims made after `w`, in order: the i-th is the claim of the row that round i picked. */
  ghost predicate OwnClaims(w: World, p: Progress, picks: seq<Option<Key>>) {
    && w.log <= p.world.log
    && |picks| - 1 <= |p.tokens| <= |picks|
    && (p.stop == GoesOn ==> |p.tokens| == |picks|)
    && (forall i :: 0 <= i < |p.tokens| ==> IsClaimOf(w, p.world, p.tokens[i], picks[i]))
    && (forall i, j :: 0 <= i < j < |p.tokens| ==> p.tokens[i] < p.tokens[j])
  }

  predicate IsClaimOf(before: World, w: World, token: nat, pick: Option<Key>) {
    |before.log| <= token < |w.log| && w.log[token].Claimed? && pick == Some(w.log[token].key)
  }

  lemma {:induction false} TokensAreItsClaims(w: World, rounds: seq<Round>, picks: seq<Option<Key>>)
    requires Played(w, rounds, picks)
    ensures OwnClaims(w, Play(w, rounds, picks), picks)
  {
    hide Step, Exec, Answered, Play, PlayRound, Played, OwnClaims;
    if picks == [] {
      NoClaimsMade(w, rounds);
    } else {
      var n := |picks| - 1;
      LastRound(w, rounds, picks);
      TokensAreItsClaims(w, rounds, picks[..n]);
      RoundClaims(Play(w, rounds, picks[..n]), rounds[n], picks[n]);
      OwnClaimsExtend(w, Play(w, rounds, picks[..n]), Play(w, rounds, picks), picks[..n], picks[n]);
      assert picks[..n] + [picks[n]] == picks;
    }
  }

  lemma NoClaimsMade(w: World, rounds: seq<Round>)
    ensures OwnClaims(w, Play(w, rounds, []), [])
  {}

  /** `q` is one round further than `p`: it claimed what it picked, or stopped. */
  ghost predicate AdvancedBy(p: Progress, q: Progress, pick: Option<Key>) {
    && p.world.log <= q.world.log
    && (q.stop == NothingDue || q.stop == ClaimThrew ==> q.tokens == p.tokens)
    && (q.stop == GoesOn || q.stop == MarkThrew ==>
          |q.tokens| == |p.tokens| + 1 && q.tokens[..|p.tokens|] == p.tokens
          && IsClaimOf(p.world, q.world, q.tokens[|p.tokens|], pick))
  }

  lemma OwnClaimsExtend(w: World, p: Progress, q: Progress, picks: seq<Option<Key>>, pick: Option<Key>)
    requires OwnClaims(w, p, picks) && p.stop == GoesOn && AdvancedBy(p, q, pick)
    ensures OwnClaims(w, q, picks + [pick])
  {
    var n := |p.tokens|;
    forall i | 0 <= i < n ensures q.tokens[i] == p.tokens[i] {
      assert q.tokens[..n][i] == p.tokens[i];
    }
  }

  lemma RoundClaims(p: Progress, round: Round, pick: Option<Key>)
    requires Answered(Exec(p.world, round.before), round, pick)
    ensures AdvancedBy(p, PlayRound(p, round, pick), pick)
  {
    hide Marks, EndingOf, Counted, Due, Exec;
    var w := Exec(p.world, round.before);
    LogGrows(p.world, round.before);
    if round.claiming == Commits && pick.Some? {
      var claimed := Step(w, Claim(pick.value));
      LogGrows(claimed, round.during);
      LogGrows(Exec(claimed, round.during), Marks(|w.log|, round));
    }
  }

  /** The row a round leaves when nobody took it away during the replay. */
  function LeftStatus(round: Round, attempt: nat): Status {
    if round.works && round.completing != RollsBack then Completed
    else if round.failing == RollsBack then Processing
    else if attempt >= 8 then Dead
    else Failed
  }

  /** Only the row of `key` has changed, as this round leaves it after this many earlier attempts. */
  ghost predicate Leaves(late: World, rows: map<Key, Row>, round: Round, key: Key, id: nat, earlier: nat) {
    && key in rows && rows[key].id == id && rows == late.rows[key := rows[key]]
    && rows[key].status == LeftStatus(round, earlier + 1)
    && (rows[key].status == Failed || rows[key].status == Dead ==>
          rows[key].nextAttemptAt == late.now + 1000 * Pow2(Min(earlier, 10)))
  }

  /**
   What a round does to the row it claimed. If the token still held after the replay, the row is
   completed exactly when the replay worked and the completing mark reached the database; otherwise
   it is failed, or dead at the eighth attempt, when the failing mark did, due again after 1000 ms
   times two to the power of the earlier attempts. If the token no longer held, no row changes.
   */
  lemma RoundLeaves(p: Progress, round: Round, key: Key)
    requires Ok(p.world) && round.claiming == Commits
    requires IsPick(Exec(p.world, round.before), round.locked, Some(key))
    ensures var w := Exec(p.world, round.before);
            var row, token := w.rows[key], |w.log|;
            var late := Exec(Step(w, Claim(key)), round.during);
            var rows := PlayRound(p, round, Some(key)).world.rows;
            if Holds(late, token) then Leaves(late, rows, round, key, row.id, row.attempts) else rows == late.rows
  {
    hide Ok, Exec, Due;
    var w := Exec(p.world, round.before);
    var token := |w.log|;
    var claimed := Step(w, Claim(key));
    var late := Exec(claimed, round.during);
    ExecKeepsOk(p.world, round.before);
    RowFacts(w, key);
    LogGrows(claimed, round.during);
    assert late.log[token] == claimed.log[token];
    BackoffNeverCaps(w.rows[key].attempts + 1);
    MarksLeave(late, token, round);
  }

  lemma MarksLeave(late: World, token: nat, round: Round)
    requires token < |late.log| && late.log[token].Claimed? && late.log[token].maxAttempts == 8
    ensures var c := late.log[token];
            var rows := Exec(late, Marks(token, round)).rows;
            if !Holds(late, token) then rows == late.rows
            else
              && c.key in rows && rows[c.key].id == c.id && rows[c.key].status == LeftStatus(round, c.attempt)
              && (rows[c.key].status == Failed || rows[c.key].status == Dead ==>
                    rows[c.key].nextAttemptAt == late.now + Backoff(c.attempt))
              && rows == late.rows[c.key := rows[c.key]]
  {
    hide Backoff, Step, Exec, Holds;
    var marks := Marks(token, round);
    ExecNothing(late);
    MarkLeaves(late, marks[0], token);
    ExtendTrace(late, [], marks[0]);
    assert [] + [marks[0]] == [marks[0]];
    if |marks| == 2 {
      MarkLeaves(Step(late, marks[0]), marks[1], token);
      ExtendTrace(late, [marks[0]], marks[1]);
      assert [marks[0]] + [marks[1]] == marks;
    } else {
      assert marks == [marks[0]];
    }
  }

  lemma MarkLeaves(w: World, e: Event, token: nat)
    requires e == Complete(token) || e == Fail(token) || e == Abort
    requires token < |w.log| && w.log[token].Claimed? && w.log[token].maxAttempts == 8
    ensures var c := w.log[token];
            var w' := Step(w, e);
            && w'.now == w.now && |w'.log| > |w.log| && w'.log[token] == c
            && (Holds(w, token) ==> c.key in w.rows && w.rows[c.key].id == c.id && w.rows[c.key].status == Processing)
            && (if e == Abort || !Holds(w, token) then
                  w'.rows == w.rows && (Holds(w', token) <==> Holds(w, token))
                else
                  && !Holds(w', token) && c.key in w'.rows && w'.rows[c.key].id == c.id
                  && w'.rows == w.rows[c.key := w'.rows[c.key]]
                  && w'.rows[c.key].status == (if e == Complete(token) then Completed
                                               else if c.attempt >= 8 then Dead else Failed)
                  && (e == Fail(token) ==> w'.rows[c.key].nextAttemptAt == w.now + Backoff(c.attempt)))
  {
    hide Backoff;
  }

  /** The completing mark reached the database and its acknowledgement was lost. */
  predicate MarkedUnheard(round: Round) {
    round.works && round.completing == AckLost
  }

  /** How each acknowledged ending agrees with what its mark left. */
  lemma EndingAgrees(round: Round, attempt: nat)
    ensures match EndingOf(round, attempt, 8)
            case EndedCompleted => LeftStatus(round, attempt) == Completed
            case EndedThrowing => round.failing != Commits
            case EndedFailed => LeftStatus(round, attempt) == if MarkedUnheard(round) then Completed else Failed
            case EndedDead => LeftStatus(round, attempt) == if MarkedUnheard(round) then Completed else Dead
  {}

  // ---- Which rows the loop completes ------------------------------------------------

  ghost predicate OkMarked(log: seq<Entry>, token: nat) {
    exists m :: 0 <= m < |log| && log[m].Marked? && log[m].token == token && log[m].ok
  }

  lemma OkMarkStep(w: World, e: Event, token: nat)
    requires OkMarked(Step(w, e).log, token) && e != Complete(token)
    ensures OkMarked(w.log, token)
  {
    var log' := Step(w, e).log;
    var m :| 0 <= m < |log'| && log'[m].Marked? && log'[m].token == token && log'[m].ok;
    assert m < |w.log| && log'[m] == w.log[m];
  }

  /** A row is marked as completed under a token only by the event that says so. */
  lemma {:induction false} OkMarkNeedsComplete(w: World, events: seq<Event>, token: nat)
    requires OkMarked(Exec(w, events).log, token) && Complete(token) !in events
    ensures OkMarked(w.log, token)
  {
    hide Step, OkMarked;
    if events != [] {
      var n := |events| - 1;
      OkMarkStep(Exec(w, events[..n]), events[n], token);
      OkMarkNeedsComplete(w, events[..n], token);
    }
  }

  /** A token is not marked before it is given out. */
  lemma NotMarkedYet(w: World, token: nat)
    requires Ok(w) && token >= |w.log|
    ensures !OkMarked(w.log, token)
  {
    hide RowOk;
  }

  /** A lock token is known to its holder only: nobody else marks with one of these. */
  ghost predicate Private(rounds: seq<Round>, tokens: seq<nat>) {
    forall i, t :: 0 <= i < |rounds| && t in tokens
      ==> Complete(t) !in rounds[i].before && Complete(t) !in rounds[i].during
  }

  /** The loop completes a row only after a replay that worked and a mark that reached the database. */
  lemma {:induction false} OnlyWorkingRoundsComplete(w: World, rounds: seq<Round>, picks: seq<Option<Key>>, i: nat)
    requires Ok(w) && Played(w, rounds, picks) && i < |Play(w, rounds, picks).tokens|
    requires Private(rounds, Play(w, rounds, picks).tokens)
    requires OkMarked(Play(w, rounds, picks).world.log, Play(w, rounds, picks).tokens[i])
    ensures i < |rounds| && rounds[i].works && rounds[i].completing != RollsBack
  {
    hide Ok, Step, Exec, Answered, Play, PlayRound, Played, OkMarked, Marks;
    TokensAreItsClaims(w, rounds, picks);
    assert picks != [];
    var n := |picks| - 1;
    LastRound(w, rounds, picks);
    TokensAreItsClaims(w, rounds, picks[..n]);
    var p, q := Play(w, rounds, picks[..n]), Play(w, rounds, picks);
    RoundClaims(p, rounds[n], picks[n]);
    PlayIsARun(w, rounds, picks[..n]);
    ExecKeepsOk(w, p.trace);
    if i < |p.tokens| {
      assert q.tokens[i] == p.tokens[i];
      RoundCompletesOwn(p, rounds[n], picks[n], q.tokens[i]);
      OnlyWorkingRoundsComplete(w, rounds, picks[..n], i);
    } else {
      RoundCompletesOwn(p, rounds[n], picks[n], q.tokens[i]);
      NotMarkedYet(p.world, q.tokens[i]);
    }
  }

  /** A round marks as completed, of such tokens, only its own, and only if its replay worked. */
  lemma RoundCompletesOwn(p: Progress, round: Round, pick: Option<Key>, token: nat)
    requires Complete(token) !in round.before && Complete(token) !in round.during
    requires OkMarked(PlayRound(p, round, pick).world.log, token)
    ensures || OkMarked(p.world.log, token)
            || (&& round.works && round.completing != RollsBack
                && |PlayRound(p, round, pick).tokens| == |p.tokens| + 1
                && PlayRound(p, round, pick).tokens[|p.tokens|] == token)
  {
    hide Step, Exec, OkMarked, Counted, EndingOf;
    var w := Exec(p.world, round.before);
    var claim := if round.claiming == RollsBack || pick.None? then Abort else Claim(pick.value);
    var claimed := Step(w, claim);
    if !(round.claiming != Commits || pick.None? || pick.value !in w.rows) {
      var late := Exec(claimed, round.during);
      if Complete(token) !in Marks(|w.log|, round) {
        OkMarkNeedsComplete(late, Marks(|w.log|, round), token);
        OkMarkNeedsComplete(claimed, round.during, token);
      }
    }
    if OkMarked(claimed.log, token) {
      OkMarkStep(w, claim, token);
      OkMarkNeedsComplete(p.world, round.before, token);
    }
  }

  /**
   `completed` counts replays that worked and whose mark was acknowledged, whether or not the mark
   took effect: it did exactly when the row is still there and nobody touched it since the claim.
   */
  lemma CompletedCountsFencedMarks(p: Progress, round: Round, key: Key)
    requires Ok(p.world) && round.works && round.claiming == Commits && round.completing == Commits
    requires IsPick(Exec(p.world, round.before), round.locked, Some(key))
    ensures var w := Exec(p.world, round.before);
            var id, token := w.rows[key].id, |w.log|;
            var late := Exec(Step(w, Claim(key)), round.during);
            var q := PlayRound(p, round, Some(key));
            && q.tally == p.tally.(claimed := p.tally.claimed + 1, completed := p.tally.completed + 1)
            && |q.world.log| == |late.log| + 1
            && (q.world.log[|late.log|] == Marked(late.now, id, token, true)
                <==> key in late.rows && late.rows[key].id == id
                     && forall m :: token < m < |late.log| ==> !Concerns(late.log[m], id))
  {
    hide Ok, RowOk, Exec, Concerns, Due;
    var w := Exec(p.world, round.before);
    var id, token := w.rows[key].id, |w.log|;
    var claimed := Step(w, Claim(key));
    var late := Exec(claimed, round.during);
    ExecKeepsOk(p.world, round.before);
    StepKeepsOk(w, Claim(key));
    ExecKeepsOk(claimed, round.during);
    LogGrows(claimed, round.during);
    var attempt, maxAttempts := w.rows[key].attempts + 1, w.rows[key].maxAttempts;
    assert late.log[token] == claimed.log[token] == Claimed(w.now, id, key, attempt, maxAttempts);
    assert Marks(token, round) == [Complete(token)];
    ExtendTrace(late, [], Complete(token));
    ExecNothing(late);
    if key in late.rows && late.rows[key].id == id {
      RowIsOk(late, key);
      HeldWhileUntouched(late.log, key, late.rows[key], token);
    }
    assert [] + [Complete(token)] == [Complete(token)];
    assert PlayRound(p, round, Some(key)).world == Step(late, Complete(token));
  }

  /** So a re-enqueue during the replay leaves the row pending although it was counted as completed. */
  lemma CompletedCanBePending(p: Progress, round: Round, key: Key)
    requires round.works && round.claiming == Commits && round.completing == Commits && round.during == [Enqueue(key)]
    requires IsPick(Exec(p.world, round.before), round.locked, Some(key))
    ensures var q := PlayRound(p, round, Some(key));
            && q.tally.completed == p.tally.completed + 1
            && key in q.world.rows && q.world.rows[key].status == Pending
  {
    hide Exec, Due;
    var w := Exec(p.world, round.before);
    var claimed := Step(w, Claim(key));
    var late := Step(claimed, Enqueue(key));
    ExtendTrace(claimed, [], Enqueue(key));
    ExecNothing(claimed);
    ExtendTrace(late, [], Complete(|w.log|));
    ExecNothing(late);
    assert round.during == [] + [Enqueue(key)];
    assert Marks(|w.log|, round) == [] + [Complete(|w.log|)];
  }

  /** One round on a fresh row that is re-enqueued while its replay is under way. */
  function Overtaken(key: Key): Round {
    Round([Enqueue(key)], {}, [Enqueue(key)], true, Commits, Commits, Commits)
  }

  /** From an empty table: one failure, one replay that works, counted as completed, the row pending. */
  lemma CountedButPending(key: Key)
    ensures Played(EMPTY, [Overtaken(key)], [Some(key)])
    ensures var p := Play(EMPTY, [Overtaken(key)], [Some(key)]);
            && p.tally == Tally(1, 1, 0, 0)
            && key in p.world.rows && p.world.rows[key].status == Pending
  {
    var round := Overtaken(key);
    var start := Play(EMPTY, [round], []);
    var w := Step(EMPTY, Enqueue(key));
    ExecNothing(EMPTY);
    ExtendTrace(EMPTY, [], Enqueue(key));
    assert round.before == [] + [Enqueue(key)];
    assert Exec(start.world, round.before) == w && Claimable(w.rows[key], w.now);
    assert IsPick(w, {}, Some(key));
    hide Exec;
    CompletedCanBePending(start, round, key);
    NothingPlayed(EMPTY, [round]);
    PlayedExtends(EMPTY, [round], [], Some(key));
    NextRound(EMPTY, [round], [], Some(key));
    assert [] + [Some(key)] == [Some(key)];
  }

  class Store {
    var now: nat
    var rows: map<Key, Row>
    var log: seq<Entry>  // its length stands for the next random id or token

    ghost function View(): World
      reads this
    {
      World(now, rows, log)
    }

    constructor ()
      ensures View() == EMPTY
    {
      now, rows, log := 0, map[], [];
    }

    /**
     Insert, or on a duplicate key put the row back to pending unless it is completed. A database
     error is swallowed and answered with false.
     */
    method EnqueueFailure(key: Key, fate: Fate) returns (queued: bool)
      modifies this
      ensures View() == Step(old(View()), if fate == RollsBack then Abort else Enqueue(key))
      ensures queued == (fate == Commits)
    {
      if fate == RollsBack {
        log := log + [Idle(now)];
        return false;
      }
      if key in rows {
        var row := rows[key];
        var status := if row.status == Completed then Completed else Pending;
        rows := rows[key := row.(status := status, nextAttemptAt := now, updatedAt := now)];
        log := log + [Requeued(now, row.id, row.status)];
      } else {
        rows := rows[key := Row(|log|, Pending, 0, DEFAULT_MAX_ATTEMPTS, now, None, None, now, now)];
        log := log + [Inserted(now, key)];
      }
      queued := fate == Commits;
    }

    /**
     Claims the row that has been due longest among the claimable ones that no concurrent claim
     has locked, or answers None when there is none.
     */
    method ClaimOne(locked: set<Key>) returns (item: Option<Item>)
      modifies this
      ensures View() == Step(old(View()), if item.Some? then Claim(item.value.key) else Abort)
      ensures IsPick(old(View()), locked, if item.Some? then Some(item.value.key) else None)
      ensures item.Some? ==>
                && item.value.token == |old(log)| && Issued(log, item.value)
                && var row := old(rows)[item.value.key];
                   item.value.attempt == row.attempts + 1 && item.value.maxAttempts == row.maxAttempts
      ensures old(log) <= log
    {
      var candidates := set k | k in rows && k !in locked && Claimable(rows[k], now);
      if candidates == {} {
        forall k | k in rows && k !in locked ensures !Claimable(rows[k], now) {
          assert k !in candidates;
        }
        log := log + [Idle(now)];
        return None;
      }
      var first :| first in candidates;
      var rest := candidates - {first};
      while rest != {}
        invariant first in candidates && rest <= candidates
        invariant forall k :: k in candidates && k !in rest ==> Due(rows[first], rows[k])
        decreases rest
      {
        var k :| k in rest;
        if !Due(rows[first], rows[k]) {
          first := k;
        }
        rest := rest - {k};
      }
      var row := rows[first];
      var token := |log|;
      rows := rows[first := row.(status := Processing, attempts := row.attempts + 1,
                                 lockedUntil := Some(now + LEASE_MS), token := Some(token), updatedAt := now)];
      log := log + [Claimed(now, row.id, first, row.attempts + 1, row.maxAttempts)];
      item := Some(Item(row.id, first, row.attempts + 1, row.maxAttempts, token));
    }

    /** A claim whose transaction has the given fate; `pick` is what its query answered, if asked. */
    method AttemptClaim(locked: set<Key>, fate: Fate) returns (item: Option<Item>, threw: bool, ghost pick: Option<Key>)
      modifies this
      ensures View() == Step(old(View()), if fate == RollsBack || pick.None? then Abort else Claim(pick.value))
      ensures fate != RollsBack ==> IsPick(old(View()), locked, pick)
      ensures threw == (fate != Commits)
      ensures !threw ==> (item.Some? <==> pick.Some?)
      ensures !threw && item.Some? ==>
                && item.value.key == pick.value && item.value.token == |old(log)| && Issued(log, item.value)
                && var row := old(rows)[item.value.key];
                   item.value.attempt == row.attempts + 1 && item.value.maxAttempts == row.maxAttempts
    {
      if fate == RollsBack {
        log := log + [Idle(now)];
        return None, true, None;
      }
      item := ClaimOne(locked);
      pick := if item.Some? then Some(item.value.key) else None;
      threw := fate == AckLost;
    }

    method MarkCompleted(item: Item, fate: Fate) returns (threw: bool)
      requires Issued(log, item)
      modifies this
      ensures View() == Step(old(View()), if fate == RollsBack then Abort else Complete(item.token))
      ensures threw == (fate != Commits)
      ensures old(log) <= log
      ensures fate != RollsBack && old(Holds(View(), item.token))
              ==> item.key in rows && rows[item.key].status == Completed
      ensures now == old(now)
    {
      if fate == RollsBack {
        log := log + [Idle(now)];
        return true;
      }
      if item.key in rows && rows[item.key].id == item.id && rows[item.key].status == Processing
         && rows[item.key].token == Some(item.token) {
        rows := rows[item.key := rows[item.key].(status := Completed, lockedUntil := None, token := None,
                                                 updatedAt := now)];
        log := log + [Marked(now, item.id, item.token, true)];
      } else {
        log := log + [Idle(now)];
      }
      threw := fate == AckLost;
    }

    method MarkFailed(item: Item, fate: Fate) returns (threw: bool)
      requires Issued(log, item)
      modifies this
      ensures View() == Step(old(View()), if fate == RollsBack then Abort else Fail(item.token))
      ensures threw == (fate != Commits)
      ensures old(log) <= log
      ensures old(item.key in rows && rows[item.key].status == Completed)
              ==> item.key in rows && rows[item.key].status == Completed
      ensures fate != RollsBack && old(Holds(View(), item.token))
              ==> && item.key in rows && rows[item.key].id == item.id
                  && rows[item.key].status == (if item.attempt >= item.maxAttempts then Dead else Failed)
                  && rows[item.key].nextAttemptAt == now + Backoff(item.attempt)
      ensures now == old(now)
    {
      if fate == RollsBack {
        log := log + [Idle(now)];
        return true;
      }
      var delay := Backoff(item.attempt);
      var next := if item.attempt >= item.maxAttempts then Dead else Failed;
      if item.key in rows && rows[item.key].id == item.id && rows[item.key].status == Processing
         && rows[item.key].token == Some(item.token) {
        rows := rows[item.key := rows[item.key].(status := next, lockedUntil := None, token := None,
                                                 nextAttemptAt := now + delay, updatedAt := now)];
        log := log + [Marked(now, item.id, item.token, false)];
      } else {
        log := log + [Idle(now)];
      }
      threw := fate == AckLost;
    }

    /** The end of a round: complete the item, or fail it when the replay or that mark threw. */
    method Settle(item: Item, round: Round) returns (ending: Ending)
      requires Issued(log, item)
      modifies this
      ensures View() == Exec(old(View()), Marks(item.token, round))
      ensures ending == EndingOf(round, item.attempt, item.maxAttempts)
      // a completion that reached the database survives the failure mark of a lost acknowledgement
      ensures round.works && round.completing != RollsBack && old(Holds(View(), item.token))
              ==> item.key in rows && rows[item.key].status == Completed
      // a replay that threw leaves the row failed or dead, due again after the backoff
      ensures !round.works && round.failing != RollsBack && old(Holds(View(), item.token)) && item.attempt >= 1
              ==> && item.key in rows && rows[item.key].id == item.id
                  && rows[item.key].status == (if item.attempt >= item.maxAttempts then Dead else Failed)
                  && rows[item.key].nextAttemptAt == now + 1000 * Pow2(Min(item.attempt - 1, 10))
      ensures now == old(now)
    {
      hide Step, Exec, Holds, Backoff;
      if item.attempt >= 1 {
        BackoffNeverCaps(item.attempt);
      }
      ghost var w := View();
      ghost var sent: seq<Event> := [];
      ExecNothing(w);
      if round.works {
        var threw := MarkCompleted(item, round.completing);
        ghost var e := if round.completing == RollsBack then Abort else Complete(item.token);
        ExtendTrace(w, sent, e);
        sent := sent + [e];
        if !threw {
          assert sent == Marks(item.token, round);
          return EndedCompleted;
        }
      }
      var threw := MarkFailed(item, round.failing);
      ghost var e := if round.failing == RollsBack then Abort else Fail(item.token);
      ExtendTrace(w, sent, e);
      sent := sent + [e];
      assert sent == Marks(item.token, round);
      ending := if threw then EndedThrowing else if item.attempt >= item.maxAttempts then EndedDead else EndedFailed;
    }

    /** Transactions of other clients and the passing of time. */
    method Others(events: seq<Event>)
      modifies this
      ensures View() == Exec(old(View()), events)
      ensures old(log) <= log
    {
      for i := 0 to |events|
        invariant View() == Exec(old(View()), events[..i])
      {
        assert events[..i + 1][..i] == events[..i];
        var w := Step(World(now, rows, log), events[i]);
        now, rows, log := w.now, w.rows, w.log;
      }
      assert events[..|events|] == events;
      LogGrows(old(View()), events);
    }

    /**
     The replay loop, with other clients in between: round by round what `Play` says, until the
     limit, a round without a row to claim, or a claim or a failure mark that throws.
     */
    method ReplayFailures(limit: int, rounds: seq<Round>) returns (t: Tally, stop: Stop, ghost picks: seq<Option<Key>>)
      requires |rounds| == BoundedLimit(limit)
      modifies this
      ensures Played(old(View()), rounds, picks)
      ensures View() == Play(old(View()), rounds, picks).world
      ensures t == Play(old(View()), rounds, picks).tally && stop == Play(old(View()), rounds, picks).stop
      ensures |picks| == |rounds| || stop != GoesOn
      ensures t.claimed <= BoundedLimit(limit) <= 100
    {
      hide Step, Exec, IsPick, Marks, EndingOf, Played, PlayRound, Counted;
      t, stop, picks := Tally(0, 0, 0, 0), GoesOn, [];
      ghost var w := View();
      NothingPlayed(w, rounds);
      for i := 0 to |rounds|
        invariant |picks| == i && Played(w, rounds, picks) && stop == Play(w, rounds, picks).stop == GoesOn
        invariant View() == Play(w, rounds, picks).world && t == Play(w, rounds, picks).tally
        invariant t.claimed <= i
      {
        var round := rounds[i];
        ghost var p := Play(w, rounds, picks);
        Others(round.before);

        ghost var pick;
        var claim, threw;
        claim, threw, pick := AttemptClaim(round.locked, round.claiming);
        PlayedExtends(w, rounds, picks, pick);
        NextRound(w, rounds, picks, pick);
        picks := picks + [pick];
        if threw || claim.None? {
          RoundWithoutItem(p, round, pick);
          stop := if threw then ClaimThrew else NothingDue;
          return;
        }
        var item := claim.value;
        RoundWithItem(p, round, item);
        Others(round.during);
        var ending := Settle(item, round);
        CountedIs(t, ending);
        t := t.(claimed := t.claimed + 1);
        match ending {
          case EndedCompleted => t := t.(completed := t.completed + 1);
          case EndedFailed => t := t.(failed := t.failed + 1);
          case EndedDead => t := t.(dead := t.dead + 1);
          case EndedThrowing =>
            stop := MarkThrew;
            return;
        }
      }
    }
  }

  lemma NothingPlayed(w: World, rounds: seq<Round>)
    ensures Played(w, rounds, [])
  {}

  lemma NextRound(w: World, rounds: seq<Round>, picks: seq<Option<Key>>, pick: Option<Key>)
    requires |picks| < |rounds|
    ensures Play(w, rounds, picks + [pick]) == PlayRound(Play(w, rounds, picks), rounds[|picks|], pick)
  {
    hide PlayRound;
    assert (picks + [pick])[..|picks|] == picks;
  }

  lemma RoundWithoutItem(p: Progress, round: Round, pick: Option<Key>)
    requires round.claiming != Commits || pick.None?
    ensures var q := PlayRound(p, round, pick);
            var claim := if round.claiming == RollsBack || pick.None? then Abort else Claim(pick.value);
            && q.world == Step(Exec(p.world, round.before), claim) && q.tally == p.tally
            && q.stop == if round.claiming == Commits then NothingDue else ClaimThrew
  {}

  lemma RoundWithItem(p: Progress, round: Round, item: Item)
    requires var w := Exec(p.world, round.before);
             item.key in w.rows && item.token == |w.log| && item.attempt == w.rows[item.key].attempts + 1
             && item.maxAttempts == w.rows[item.key].maxAttempts
    requires round.claiming == Commits
    ensures var q := PlayRound(p, round, Some(item.key));
            var ending := EndingOf(round, item.attempt, item.maxAttempts);
            && q.world == Exec(Exec(Step(Exec(p.world, round.before), Claim(item.key)), round.during),
                               Marks(item.token, round))
            && q.tally == Counted(p.tally, ending)
            && q.stop == if ending == EndedThrowing then MarkThrew else GoesOn
  {}

  lemma CountedIs(t: Tally, ending: Ending)
    ensures Counted(t, ending) == Tally(
              t.claimed + 1,
              t.completed + if ending == EndedCompleted then 1 else 0,
              t.failed + if ending == EndedFailed then 1 else 0,
              t.dead + if ending == EndedDead then 1 else 0)
  {}
}

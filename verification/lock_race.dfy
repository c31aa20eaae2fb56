/** How the scheduler's lock and the player's bet submission interact.

    The scheduler locks the bets of games kicking off 30 to 40 minutes after
    its run, while `submitBet` accepts a bet up to exactly 30 minutes before
    kickoff and writes it with `locked` false. The write names no conflict
    target, so it inserts a new row: after a run has locked a user's bet, a
    resubmission leaves that user with a second, unlocked bet on the game,
    and no run on the ten-minute schedule after the locking one locks it,
    because by then the game has left the lock window.
    The corrected model writes through the upsert keyed on (user, game) and
    refuses a write to a locked bet (`SubmitBetChecked`): under it a locked
    bet stays locked with its guesses unchanged, and stays the user's only
    bet on the game, whatever happens next. */
module LockRace {
  import opened Wrappers
  import opened Seqs
  import opened Rows
  import Betting
  import Scheduler

  /** The scenario: game `games[gi]` (its id unique, not finished) is in the
      lock window of a run at `now1`; `bets[bi]` is `user`'s bet on it; the
      user resubmits at `now2`, no earlier than the run and no later than the
      cutoff. */
  predicate Scenario(games: seq<Game>, gi: nat, bets: seq<Bet>, bi: nat, user: Id, now1: Millis, now2: Millis) {
    && gi < |games| && bi < |bets|
    && (forall j :: 0 <= j < |games| && games[j].id == games[gi].id ==> j == gi)
    && Scheduler.DueForLock(now1, games[gi])
    && bets[bi].userId == user && bets[bi].gameId == games[gi].id
    && now1 <= now2 <= games[gi].dateTime - Betting.BettingCutoff
  }

  /** As written: the run locks the bet and the resubmission is accepted.
      Without a unique index the insert keeps the locked bet and adds an
      unlocked bet of the same user on the same game, carrying the new
      guesses, which every run at least one window (ten minutes) after the
      locking run leaves unlocked: the next run of the ten-minute schedule
      and all that follow. With a unique index the store refuses the write instead. */
  lemma LockedGameTakesUnlockedBet(games: seq<Game>, gi: nat, bets: seq<Bet>, bi: nat, user: Id,
                                   now1: Millis, now2: Millis, betA: int, betB: int, freshId: Id, now3: Millis)
    requires Scenario(games, gi, bets, bi, user, now1, now2)
    requires now3 >= now1 + Scheduler.Window
    ensures var afterTick := Scheduler.Tick(now1, games, bets).bets;
            var submitted := Betting.SubmitBet(Some(user), games, games[gi].id, betA, betB, now2);
            afterTick[bi].locked
            && submitted.Success?
            && Betting.InsertBetWrite(afterTick, submitted.value, freshId, now2, true).Failure?
            && var inserted := Betting.InsertBetWrite(afterTick, submitted.value, freshId, now2, false);
               inserted.Success?
               && var t := inserted.value;
                  var n := |afterTick|;
                  t[bi] == afterTick[bi]
                  && t[n].userId == user && t[n].gameId == games[gi].id
                  && t[n].betA == betA && t[n].betB == betB && !t[n].locked
                  && !Scheduler.Tick(now3, games, t).bets[n].locked
  {
    var g := games[gi];
    var afterTick := Scheduler.Tick(now1, games, bets).bets;
    assert Scheduler.SelectedForLock(now1, games, g.id);
    assert Seqs.FirstIndex(games, Betting.HasId(g.id)) == gi;
    var submitted := Betting.SubmitBet(Some(user), games, g.id, betA, betB, now2);
    assert submitted.Success?;
    assert Betting.SameSlot(afterTick[bi], submitted.value);
    var t := Betting.InsertBetWrite(afterTick, submitted.value, freshId, now2, false).value;
    assert t[bi] == t[..|afterTick|][bi];
    assert !Scheduler.SelectedForLock(now3, games, g.id);
  }

  /** A concrete instance: kickoff at 100 minutes, a run at exactly 70
      minutes locks the 2x1 bet, a 3x0 resubmission at the same instant is
      added beside it unlocked, and the next run ten minutes later leaves
      the new bet unlocked. */
  lemma UnlockedBetExample()
    ensures var g := Game("g1", "r1", "A", "B", 100 * Minute, false, None, None, 0, 0);
            var b := Bet("b1", "u1", "g1", 2, 1, false, None, 0, 0);
            var afterTick := Scheduler.Tick(70 * Minute, [g], [b]).bets;
            var w := Betting.SubmitBet(Some("u1"), [g], "g1", 3, 0, 70 * Minute);
            afterTick[0].locked && w.Success?
            && var t := Betting.InsertBetWrite(afterTick, w.value, "b2", 70 * Minute, false);
               t.Success? && |t.value| == 2
               && t.value[0].locked && t.value[0].betA == 2
               && t.value[1].userId == "u1" && t.value[1].gameId == "g1"
               && !t.value[1].locked && t.value[1].betA == 3
               && !Scheduler.Tick(80 * Minute, [g], t.value).bets[1].locked
  {
    var g := Game("g1", "r1", "A", "B", 100 * Minute, false, None, None, 0, 0);
    var b := Bet("b1", "u1", "g1", 2, 1, false, None, 0, 0);
    LockedGameTakesUnlockedBet([g], 0, [b], 0, "u1", 70 * Minute, 70 * Minute, 3, 0, "b2", 80 * Minute);
  }

  /** Corrected: in the same scenario the checked submission is refused, so
      the bet keeps the lock the run gave it. */
  lemma CheckedSubmitRefusesLockedBet(games: seq<Game>, gi: nat, bets: seq<Bet>, bi: nat, user: Id,
                                      now1: Millis, now2: Millis, betA: int, betB: int)
    requires Scenario(games, gi, bets, bi, user, now1, now2)
    ensures Betting.SubmitBetChecked(Some(user), games, Scheduler.Tick(now1, games, bets).bets,
                                     games[gi].id, betA, betB, now2) == Failure(Betting.AlreadyLocked)
  {
    var afterTick := Scheduler.Tick(now1, games, bets).bets;
    assert Scheduler.SelectedForLock(now1, games, games[gi].id);
    assert Betting.HoldsLockedBet(afterTick, user, games[gi].id) by {
      assert afterTick[bi].locked;
    }
    assert Seqs.FirstIndex(games, Betting.HasId(games[gi].id)) == gi;
  }

  /** What can happen to the bets table: a scheduler run, or a player's
      checked submission followed by the keyed upsert. */
  datatype Event =
    | Run(now: Millis)
    | Submit(user: Id, gameId: Id, betA: int, betB: int, now: Millis, freshId: Id)

  /** The bets table after one event. */
  function Step(games: seq<Game>, bets: seq<Bet>, e: Event): (r: seq<Bet>)
    ensures |r| >= |bets|
  {
    match e
    case Run(now) => Scheduler.Tick(now, games, bets).bets
    case Submit(user, gameId, betA, betB, now, freshId) =>
      match Betting.SubmitBetChecked(Some(user), games, bets, gameId, betA, betB, now)
      case Success(w) => Betting.UpsertBetWrite(bets, w, freshId, now)
      case Failure(_) => bets
  }

  /** `after` extends `before` and every bet locked in `before` is
      unchanged in it, lock and guesses included. */
  predicate KeepsLocks(before: seq<Bet>, after: seq<Bet>) {
    |after| >= |before|
    && forall i :: 0 <= i < |before| && before[i].locked ==> after[i] == before[i]
  }

  /** The bets table after applying `step` to each event in turn. */
  function Replay(step: (seq<Bet>, Event) -> seq<Bet>, bets: seq<Bet>, events: seq<Event>): seq<Bet>
    decreases |events|
  {
    if |events| == 0 then bets else Replay(step, step(bets, events[0]), events[1..])
  }

  /** The table's evolution under runs and checked submissions. */
  function CheckedStep(games: seq<Game>): (seq<Bet>, Event) -> seq<Bet> {
    (bets: seq<Bet>, e: Event) => Step(games, bets, e)
  }

  /** One event never unlocks a bet nor changes the guesses of a locked one. */
  lemma StepKeepsLocks(games: seq<Game>, bets: seq<Bet>, e: Event)
    ensures KeepsLocks(bets, Step(games, bets, e))
  {
    match e
    case Run(now) =>
    case Submit(user, gameId, betA, betB, now, freshId) =>
      if Betting.SubmitBetChecked(Some(user), games, bets, gameId, betA, betB, now).Success? {
        Betting.CheckedSubmitKeepsLockedBets(Some(user), games, bets, gameId, betA, betB, now, freshId);
      }
  }

  /** If every single step keeps locks, so does any sequence of steps. */
  lemma {:induction false} ReplayKeepsLocks(step: (seq<Bet>, Event) -> seq<Bet>, bets: seq<Bet>, events: seq<Event>)
    requires forall b: seq<Bet>, e: Event :: KeepsLocks(b, step(b, e))
    ensures KeepsLocks(bets, Replay(step, bets, events))
    decreases |events|
  {
    if |events| > 0 {
      var next := step(bets, events[0]);
      ReplayKeepsLocks(step, next, events[1..]);
    }
  }

  /** With checked submissions, locking is final: a bet locked at any point
      stays locked with the same guesses after any sequence of runs and
      submissions. */
  lemma LocksAreFinal(games: seq<Game>, bets: seq<Bet>, events: seq<Event>)
    ensures KeepsLocks(bets, Replay(CheckedStep(games), bets, events))
  {
    forall b: seq<Bet>, e: Event ensures KeepsLocks(b, CheckedStep(games)(b, e)) {
      StepKeepsLocks(games, b, e);
    }
    ReplayKeepsLocks(CheckedStep(games), bets, events);
  }

  /** One event keeps one bet per user and game. */
  lemma StepKeepsOneBetPerSlot(games: seq<Game>, bets: seq<Bet>, e: Event)
    requires Betting.OneBetPerSlot(bets)
    ensures Betting.OneBetPerSlot(Step(games, bets, e))
  {
    match e
    case Run(now) =>
      var r := Step(games, bets, e);
      forall i, j | 0 <= i < j < |r|
        ensures !(r[i].userId == r[j].userId && r[i].gameId == r[j].gameId)
      {
        assert r[i].userId == bets[i].userId && r[i].gameId == bets[i].gameId;
        assert r[j].userId == bets[j].userId && r[j].gameId == bets[j].gameId;
      }
    case Submit(user, gameId, betA, betB, now, freshId) =>
      var c := Betting.SubmitBetChecked(Some(user), games, bets, gameId, betA, betB, now);
      if c.Success? {
        Betting.UpsertKeepsOneBetPerSlot(bets, c.value, freshId, now);
      }
  }

  /** A property of the table that every single step keeps holds after any
      sequence of steps. */
  lemma {:induction false} ReplayPreserves(step: (seq<Bet>, Event) -> seq<Bet>, inv: seq<Bet> -> bool,
                                           bets: seq<Bet>, events: seq<Event>)
    requires forall b: seq<Bet>, e: Event :: inv(b) ==> inv(step(b, e))
    requires inv(bets)
    ensures inv(Replay(step, bets, events))
    decreases |events|
  {
    if |events| > 0 {
      ReplayPreserves(step, inv, step(bets, events[0]), events[1..]);
    }
  }

  /** With checked submissions and the keyed upsert, a locked bet is final:
      it keeps its lock and guesses, and no other bet of the same user on
      the same game ever appears beside it. */
  lemma LockedBetStaysOnlyBet(games: seq<Game>, bets: seq<Bet>, events: seq<Event>, i: nat)
    requires Betting.OneBetPerSlot(bets)
    requires i < |bets| && bets[i].locked
    ensures var r := Replay(CheckedStep(games), bets, events);
            i < |r| && r[i] == bets[i]
            && forall j :: 0 <= j < |r| && j != i ==>
                 !(r[j].userId == bets[i].userId && r[j].gameId == bets[i].gameId)
  {
    var inv := (b: seq<Bet>) => Betting.OneBetPerSlot(b);
    forall b: seq<Bet>, e: Event | inv(b) ensures inv(CheckedStep(games)(b, e)) {
      StepKeepsOneBetPerSlot(games, b, e);
    }
    ReplayPreserves(CheckedStep(games), inv, bets, events);
    LocksAreFinal(games, bets, events);
    var r := Replay(CheckedStep(games), bets, events);
    assert Betting.OneBetPerSlot(r);
    forall j | 0 <= j < |r| && j != i
      ensures !(r[j].userId == bets[i].userId && r[j].gameId == bets[i].gameId)
    {
      assert r[i] == bets[i];
      if j < i {
        assert !(r[j].userId == r[i].userId && r[j].gameId == r[i].gameId);
      } else {
        assert !(r[i].userId == r[j].userId && r[i].gameId == r[j].gameId);
      }
    }
  }
}

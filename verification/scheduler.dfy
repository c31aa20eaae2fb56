/** The periodic scheduler of the contest as one pure `Tick`: from the
    instant of the run and the games and bets tables it computes the bets
    table after the lock update, the notification requests it makes, and the
    counters it reports. */
module Scheduler {
  import opened Wrappers
  import opened Seqs
  import opened Rows

  /** Reminders go out for games kicking off 60 to 70 minutes after the run. */
  const ReminderLead: Millis := 60 * Minute

  /** Bets are locked on games kicking off 30 to 40 minutes after the run. */
  const LockLead: Millis := 30 * Minute

  /** Width of the reminder and lock windows. */
  const Window: Millis := 10 * Minute

  /** Results notifications cover games updated in the last 10 minutes. */
  const ResultsLookback: Millis := 10 * Minute

  /** `.gte(start).lt(start + 10 min)` on a game's kickoff. */
  predicate InWindow(t: Millis, start: Millis) {
    start <= t < start + Window
  }

  predicate DueForReminder(now: Millis, g: Game) {
    !g.finished && InWindow(g.dateTime, now + ReminderLead)
  }

  predicate DueForLock(now: Millis, g: Game) {
    !g.finished && InWindow(g.dateTime, now + LockLead)
  }

  predicate RecentlyFinished(now: Millis, g: Game) {
    g.finished && g.updatedAt >= now - ResultsLookback
  }

  function ReminderDue(now: Millis): Game -> bool {
    g => DueForReminder(now, g)
  }

  function LockDue(now: Millis): Game -> bool {
    g => DueForLock(now, g)
  }

  function ResultDue(now: Millis): Game -> bool {
    g => RecentlyFinished(now, g)
  }

  /** Some game with this id is in the lock window. */
  predicate SelectedForLock(now: Millis, games: seq<Game>, gameId: Id) {
    exists j :: 0 <= j < |games| && games[j].id == gameId && DueForLock(now, games[j])
  }

  /** A request the scheduler makes to the notification function. */
  datatype Invocation = GameReminder(gameId: Id) | ResultsAvailable(roundId: Id)

  /** The counters of the scheduler's response. */
  datatype Report = Report(upcomingGames: nat, lockedGames: nat, resultsNotifications: nat)

  datatype TickOutcome = TickOutcome(bets: seq<Bet>, invocations: seq<Invocation>, report: Report)

  function GameIds(gs: seq<Game>): set<Id> {
    set g | g in gs :: g.id
  }

  /** The conditional update `locked = true where game_id in ids and locked = false`. */
  function LockBets(bets: seq<Bet>, ids: set<Id>): (r: seq<Bet>)
    ensures |r| == |bets|
    ensures forall i :: 0 <= i < |bets| ==> r[i].locked == (bets[i].locked || bets[i].gameId in ids)
    ensures forall i :: 0 <= i < |bets| ==> r[i] == bets[i].(locked := r[i].locked)
  {
    seq(|bets|, i requires 0 <= i < |bets| =>
      if bets[i].gameId in ids && !bets[i].locked then bets[i].(locked := true) else bets[i])
  }

  function ToReminder(g: Game): Invocation {
    GameReminder(g.id)
  }

  function ToResults(roundId: Id): Invocation {
    ResultsAvailable(roundId)
  }

  function RoundOf(g: Game): Id {
    g.roundId
  }

  /** The rounds notified, in the order the loop first meets them. */
  function NotifiedRounds(now: Millis, games: seq<Game>): seq<Id> {
    Distinct(Map(Filter(games, ResultDue(now)), RoundOf))
  }

  /** The ids of the games a run selects for locking are exactly the ids of
      games in the lock window. */
  lemma LockSelection(now: Millis, games: seq<Game>, gameId: Id)
    ensures gameId in GameIds(Filter(games, LockDue(now))) <==> SelectedForLock(now, games, gameId)
  {
    var near := Filter(games, LockDue(now));
    if gameId in GameIds(near) {
      var g :| g in near && g.id == gameId;
      var k :| 0 <= k < |near| && near[k] == g;
      var j :| 0 <= j < |games| && games[j] == near[k];
      assert DueForLock(now, games[j]);
    }
    if SelectedForLock(now, games, gameId) {
      var j :| 0 <= j < |games| && games[j].id == gameId && DueForLock(now, games[j]);
      assert LockDue(now)(games[j]);
      assert games[j] in near;
    }
  }

  /** One run of the scheduler at `now`. */
  function Tick(now: Millis, games: seq<Game>, bets: seq<Bet>): (t: TickOutcome)
    ensures |t.bets| == |bets|
    ensures forall i :: 0 <= i < |bets| ==>
              t.bets[i] == bets[i].(locked := bets[i].locked || SelectedForLock(now, games, bets[i].gameId))
    ensures t.report.upcomingGames == Count(games, ReminderDue(now))
    ensures t.report.lockedGames == Count(games, LockDue(now))
    ensures |t.invocations| == t.report.upcomingGames + t.report.resultsNotifications
    ensures forall i :: 0 <= i < t.report.upcomingGames ==> t.invocations[i].GameReminder?
    ensures forall i :: t.report.upcomingGames <= i < |t.invocations| ==> t.invocations[i].ResultsAvailable?
    ensures forall j :: 0 <= j < |games| && DueForReminder(now, games[j]) ==> GameReminder(games[j].id) in t.invocations
    ensures forall i :: 0 <= i < |t.invocations| && t.invocations[i].GameReminder? ==>
              exists j :: 0 <= j < |games| && games[j].id == t.invocations[i].gameId && DueForReminder(now, games[j])
    ensures forall j :: 0 <= j < |games| && RecentlyFinished(now, games[j]) ==> ResultsAvailable(games[j].roundId) in t.invocations
    ensures forall i :: 0 <= i < |t.invocations| && t.invocations[i].ResultsAvailable? ==>
              exists j :: 0 <= j < |games| && games[j].roundId == t.invocations[i].roundId && RecentlyFinished(now, games[j])
    ensures NoDuplicates(t.invocations[t.report.upcomingGames..])
  {
    var upcoming := Filter(games, ReminderDue(now));
    var nearStart := Filter(games, LockDue(now));
    var lockedBets := if |nearStart| > 0 then LockBets(bets, GameIds(nearStart)) else bets;
    var rounds := NotifiedRounds(now, games);
    var notified := Elements(rounds);
    var reminders := Map(upcoming, ToReminder);
    var results := Map(rounds, ToResults);
    LockedBetsFacts(now, games, bets);
    ReminderFacts(now, games);
    ResultsFacts(now, games);
    NoDuplicatesCardinality(rounds);
    InvocationFacts(reminders, results);
    TickOutcome(lockedBets, reminders + results, Report(|upcoming|, |nearStart|, |notified|))
  }

  /** The bets after the lock step: each bet is locked afterwards exactly
      when it was locked before or its game is in the lock window. */
  lemma LockedBetsFacts(now: Millis, games: seq<Game>, bets: seq<Bet>)
    ensures var nearStart := Filter(games, LockDue(now));
            var lockedBets := if |nearStart| > 0 then LockBets(bets, GameIds(nearStart)) else bets;
            |lockedBets| == |bets|
            && forall i :: 0 <= i < |bets| ==>
                 lockedBets[i] == bets[i].(locked := bets[i].locked || SelectedForLock(now, games, bets[i].gameId))
  {
    var nearStart := Filter(games, LockDue(now));
    var lockedBets := if |nearStart| > 0 then LockBets(bets, GameIds(nearStart)) else bets;
    forall i | 0 <= i < |bets|
      ensures lockedBets[i] == bets[i].(locked := bets[i].locked || SelectedForLock(now, games, bets[i].gameId))
    {
      LockSelection(now, games, bets[i].gameId);
    }
  }

  /** One reminder per game in the reminder window, and no other. */
  lemma ReminderFacts(now: Millis, games: seq<Game>)
    ensures var reminders := Map(Filter(games, ReminderDue(now)), ToReminder);
            (forall j :: 0 <= j < |games| && DueForReminder(now, games[j]) ==> GameReminder(games[j].id) in reminders)
            && (forall i :: 0 <= i < |reminders| ==>
                  reminders[i].GameReminder?
                  && exists j :: 0 <= j < |games| && games[j].id == reminders[i].gameId && DueForReminder(now, games[j]))
  {
    var upcoming := Filter(games, ReminderDue(now));
    var reminders := Map(upcoming, ToReminder);
    forall j | 0 <= j < |games| && DueForReminder(now, games[j])
      ensures GameReminder(games[j].id) in reminders
    {
      assert ReminderDue(now)(games[j]);
      var k :| 0 <= k < |upcoming| && upcoming[k] == games[j];
      assert reminders[k] == GameReminder(games[j].id);
    }
    forall i | 0 <= i < |reminders|
      ensures reminders[i].GameReminder?
      ensures exists j :: 0 <= j < |games| && games[j].id == reminders[i].gameId && DueForReminder(now, games[j])
    {
      var j :| 0 <= j < |games| && games[j] == upcoming[i];
      assert ReminderDue(now)(upcoming[i]);
    }
  }

  /** One results request per distinct round among the recently finished games. */
  lemma ResultsFacts(now: Millis, games: seq<Game>)
    ensures var results := Map(NotifiedRounds(now, games), ToResults);
            NoDuplicates(results)
            && (forall j :: 0 <= j < |games| && RecentlyFinished(now, games[j]) ==> ResultsAvailable(games[j].roundId) in results)
            && (forall i :: 0 <= i < |results| ==>
                  results[i].ResultsAvailable?
                  && exists j :: 0 <= j < |games| && games[j].roundId == results[i].roundId && RecentlyFinished(now, games[j]))
  {
    var recent := Filter(games, ResultDue(now));
    var roundIds := Map(recent, RoundOf);
    var rounds := NotifiedRounds(now, games);
    var results := Map(rounds, ToResults);
    forall j | 0 <= j < |games| && RecentlyFinished(now, games[j])
      ensures ResultsAvailable(games[j].roundId) in results
    {
      assert ResultDue(now)(games[j]);
      var k :| 0 <= k < |recent| && recent[k] == games[j];
      assert roundIds[k] == games[j].roundId;
      var m :| 0 <= m < |rounds| && rounds[m] == roundIds[k];
      assert results[m] == ResultsAvailable(games[j].roundId);
    }
    forall i | 0 <= i < |results|
      ensures results[i].ResultsAvailable?
      ensures exists j :: 0 <= j < |games| && games[j].roundId == results[i].roundId && RecentlyFinished(now, games[j])
    {
      var k :| 0 <= k < |roundIds| && roundIds[k] == rounds[i];
      var j :| 0 <= j < |games| && games[j] == recent[k];
      assert ResultDue(now)(recent[k]);
    }
    forall a, b | 0 <= a < b < |results| ensures results[a] != results[b] {
      assert rounds[a] != rounds[b];
    }
  }

  /** Membership in the two halves of the invocation list. */
  lemma InvocationFacts(reminders: seq<Invocation>, results: seq<Invocation>)
    ensures (reminders + results)[|reminders|..] == results
    ensures forall x :: x in reminders ==> x in reminders + results
    ensures forall x :: x in results ==> x in reminders + results
  {
    assert (reminders + results)[|reminders|..] == results;
  }

  /** Locking is idempotent: a second run at the same instant changes no bet. */
  lemma TickLockIdempotent(now: Millis, games: seq<Game>, bets: seq<Bet>)
    ensures Tick(now, games, Tick(now, games, bets).bets).bets == Tick(now, games, bets).bets
  {
  }

  /** No catch-up: a game kicking off in less than 30 minutes, or already
      started, is never selected, so its bets keep whatever lock they have. */
  lemma NoCatchUp(now: Millis, games: seq<Game>, bets: seq<Bet>, gameId: Id)
    requires forall j :: 0 <= j < |games| && games[j].id == gameId ==> games[j].dateTime < now + LockLead
    ensures forall i :: 0 <= i < |bets| && bets[i].gameId == gameId ==> Tick(now, games, bets).bets[i] == bets[i]
  {
  }

  /** Runs spaced exactly one window apart select each unfinished game for
      locking in exactly one run: the half-open windows tile the time line. */
  lemma LockWindowsTile(start: Millis, g: Game)
    requires !g.finished
    ensures exists k: int :: DueForLock(start + k * Window, g)
    ensures forall k1: int, k2: int :: DueForLock(start + k1 * Window, g) && DueForLock(start + k2 * Window, g) ==> k1 == k2
  {
    var k := (g.dateTime - LockLead - start) / Window;
    assert DueForLock(start + k * Window, g);
    forall k1: int, k2: int | DueForLock(start + k1 * Window, g) && DueForLock(start + k2 * Window, g)
      ensures k1 == k2
    {
    }
  }

  /** The results look-back is closed at its lower end: a game whose result
      was recorded exactly at one run is still recent at the run one window
      later, so its round is notified by both runs. */
  lemma ResultsLookbackOverlap(g: Game, now: Millis)
    requires g.finished && g.updatedAt == now
    ensures RecentlyFinished(now, g) && RecentlyFinished(now + Window, g)
  {
  }
}

/** The player-facing half of the bet lifecycle (`useGames`): choosing the
    current round, the submit-time cutoff check, and the row the upsert
    writes into the bets table. */
module Betting {
  import opened Wrappers
  import opened Seqs
  import opened Rows

  /** Bets close this long before kickoff. */
  const BettingCutoff: Millis := 30 * Minute

  predicate IsOpenRound(r: Round) {
    r.status == Aberta
  }

  /** The order the rounds query returns: most recently created first. */
  predicate NewestFirst(rounds: seq<Round>) {
    forall i, j :: 0 <= i < j < |rounds| ==> rounds[i].createdAt >= rounds[j].createdAt
  }

  /** The round the dashboard shows: the first open round in query order,
      otherwise the first round, otherwise none. */
  function CurrentRound(rounds: seq<Round>): (r: Option<Round>)
    ensures |rounds| == 0 <==> r.None?
    ensures forall k :: (0 <= k < |rounds| && IsOpenRound(rounds[k])
                         && forall j :: 0 <= j < k ==> !IsOpenRound(rounds[j])) ==> r == Some(rounds[k])
    ensures |rounds| > 0 && (forall j :: 0 <= j < |rounds| ==> !IsOpenRound(rounds[j])) ==> r == Some(rounds[0])
  {
    match Find(rounds, IsOpenRound)
    case Some(active) => Some(active)
    case None => if |rounds| > 0 then Some(rounds[0]) else None
  }

  /** With the rounds newest first, the current round is the newest open
      round, or the newest round of all when none is open. */
  lemma CurrentRoundIsNewest(rounds: seq<Round>)
    requires NewestFirst(rounds)
    requires |rounds| > 0
    ensures CurrentRound(rounds).Some?
    ensures (exists i :: 0 <= i < |rounds| && IsOpenRound(rounds[i])) ==>
              IsOpenRound(CurrentRound(rounds).value)
              && forall i :: 0 <= i < |rounds| && IsOpenRound(rounds[i]) ==>
                   rounds[i].createdAt <= CurrentRound(rounds).value.createdAt
    ensures (forall i :: 0 <= i < |rounds| ==> !IsOpenRound(rounds[i])) ==>
              forall i :: 0 <= i < |rounds| ==> rounds[i].createdAt <= CurrentRound(rounds).value.createdAt
  {
    var k := FirstIndex(rounds, IsOpenRound);
    if k < |rounds| {
      assert CurrentRound(rounds) == Some(rounds[k]);
      forall i | 0 <= i < |rounds| && IsOpenRound(rounds[i])
        ensures rounds[i].createdAt <= rounds[k].createdAt
      {
      }
    } else {
      assert CurrentRound(rounds) == Some(rounds[0]);
    }
  }

  function HasId(id: Id): Game -> bool {
    (g: Game) => g.id == id
  }

  /** The instant after which a bet on `gameId` is refused: 30 minutes before
      kickoff of the game found in the loaded list. A game that is not in the
      list yields an invalid date (`None`). */
  function CutoffTime(games: seq<Game>, gameId: Id): (c: Option<Millis>)
    ensures c.None? <==> forall i :: 0 <= i < |games| ==> games[i].id != gameId
    ensures c.Some? ==> exists i :: 0 <= i < |games| && games[i].id == gameId
                                    && c.value == games[i].dateTime - BettingCutoff
  {
    match Find(games, HasId(gameId))
    case Some(g) => Some(g.dateTime - BettingCutoff)
    case None => None
  }

  /** `now > cutoffTime`; every comparison with an invalid date is false. */
  predicate PastCutoff(now: Millis, cutoff: Option<Millis>) {
    cutoff.Some? && now > cutoff.value
  }

  /** The row `submitBet` hands to the upsert. */
  datatype BetWrite = BetWrite(userId: Id, gameId: Id, betA: int, betB: int, locked: bool)

  datatype SubmitError = NotAuthenticated | BettingClosed | AlreadyLocked

  /** `submitBet`: an unauthenticated caller is refused before anything else;
      a bet later than the cutoff is refused without a write; otherwise the
      guesses are written with `locked` reset to false, whatever the stored
      bet's lock. */
  function SubmitBet(user: Option<Id>, games: seq<Game>, gameId: Id, betA: int, betB: int, now: Millis)
    : (r: Result<BetWrite, SubmitError>)
    ensures user.None? ==> r == Failure(NotAuthenticated)
    ensures user.Some? ==> (r == Failure(BettingClosed) <==> PastCutoff(now, CutoffTime(games, gameId)))
    ensures r.Success? <==> user.Some? && !PastCutoff(now, CutoffTime(games, gameId))
    ensures r.Success? ==> r.value.userId == user.value && r.value.gameId == gameId
                           && r.value.betA == betA && r.value.betB == betB && !r.value.locked
  {
    if user.None? then Failure(NotAuthenticated)
    else if PastCutoff(now, CutoffTime(games, gameId)) then Failure(BettingClosed)
    else Success(BetWrite(user.value, gameId, betA, betB, false))
  }

  /** Exactly 30 minutes before kickoff a bet is still accepted (the
      comparison is strict); one millisecond later it is refused. */
  lemma SubmitCutoffBoundary(user: Id, games: seq<Game>, i: nat, betA: int, betB: int)
    requires i < |games|
    requires forall j :: 0 <= j < i ==> games[j].id != games[i].id
    ensures SubmitBet(Some(user), games, games[i].id, betA, betB, games[i].dateTime - 30 * Minute).Success?
    ensures SubmitBet(Some(user), games, games[i].id, betA, betB, games[i].dateTime - 30 * Minute + 1)
            == Failure(BettingClosed)
  {
    var k := FirstIndex(games, HasId(games[i].id));
    assert k == i;
  }

  /** A game missing from the loaded list never trips the cutoff: the bet is written. */
  lemma SubmitUnknownGame(user: Id, games: seq<Game>, gameId: Id, betA: int, betB: int, now: Millis)
    requires forall i :: 0 <= i < |games| ==> games[i].id != gameId
    ensures SubmitBet(Some(user), games, gameId, betA, betB, now) == Success(BetWrite(user, gameId, betA, betB, false))
  {
  }

  predicate SameSlot(b: Bet, w: BetWrite) {
    b.userId == w.userId && b.gameId == w.gameId
  }

  /** No two bets of the same user on the same game. */
  predicate OneBetPerSlot(bets: seq<Bet>) {
    forall i, j :: 0 <= i < j < |bets| ==> !(bets[i].userId == bets[j].userId && bets[i].gameId == bets[j].gameId)
  }

  /** Some bet of the table is in the write's (user, game) slot. */
  predicate SlotTaken(bets: seq<Bet>, w: BetWrite) {
    exists i :: 0 <= i < |bets| && SameSlot(bets[i], w)
  }

  /** The row a write becomes when it is inserted under a new id. */
  function NewRow(w: BetWrite, id: Id, now: Millis): Bet {
    Bet(id, w.userId, w.gameId, w.betA, w.betB, w.locked, None, now, now)
  }

  /** Why the store refused a write. */
  datatype WriteError = DuplicateSlot

  /** The write as the call issues it: an `upsert` that names no conflict
      target resolves conflicts on the primary key, and the row carries no
      `id`, so the store generates a new one (`freshId`) and the upsert is a
      plain insert. Existing rows are never touched. Whether the table has a
      unique index on (user, game) is not part of the repository; with one
      (`slotUnique`), an insert into a taken slot is refused. */
  function InsertBetWrite(bets: seq<Bet>, w: BetWrite, freshId: Id, now: Millis, slotUnique: bool)
    : (r: Result<seq<Bet>, WriteError>)
    ensures r.Failure? <==> slotUnique && SlotTaken(bets, w)
    ensures r.Success? ==> |r.value| == |bets| + 1 && r.value[..|bets|] == bets
                           && r.value[|bets|] == NewRow(w, freshId, now)
  {
    if slotUnique && SlotTaken(bets, w) then Failure(DuplicateSlot)
    else Success(bets + [NewRow(w, freshId, now)])
  }

  /** Without a unique index, changing a guess leaves the old bet in place
      and adds a second bet of the same user on the same game. */
  lemma ResubmitAddsSecondBet(bets: seq<Bet>, i: nat, w: BetWrite, freshId: Id, now: Millis)
    requires i < |bets| && SameSlot(bets[i], w)
    ensures var r := InsertBetWrite(bets, w, freshId, now, false);
            r.Success? && r.value[i] == bets[i] && SameSlot(r.value[|bets|], w)
            && !OneBetPerSlot(r.value)
  {
    var t := InsertBetWrite(bets, w, freshId, now, false).value;
    assert t[i] == t[..|bets|][i];
    assert t[i].userId == t[|bets|].userId && t[i].gameId == t[|bets|].gameId;
  }

  /** With a unique index on (user, game), a guess can never be changed:
      every write into a taken slot is refused and the table stays as it
      was; and the index keeps one bet per slot. */
  lemma UniqueSlotRefusesChanges(bets: seq<Bet>, w: BetWrite, freshId: Id, now: Millis)
    requires OneBetPerSlot(bets)
    ensures var r := InsertBetWrite(bets, w, freshId, now, true);
            (r.Failure? <==> SlotTaken(bets, w))
            && (r.Success? ==> OneBetPerSlot(r.value))
  {
    var r := InsertBetWrite(bets, w, freshId, now, true);
    if r.Success? {
      var t := r.value;
      forall i, j | 0 <= i < j < |t|
        ensures !(t[i].userId == t[j].userId && t[i].gameId == t[j].gameId)
      {
        if j == |bets| {
          assert t[i] == bets[i];
          assert !SameSlot(bets[i], w);
        } else {
          assert t[i] == bets[i] && t[j] == bets[j];
        }
      }
    }
  }

  /** The upsert the write evidently intends, keyed on (user, game) as
      `onConflict: 'user_id,game_id'` would make it: an existing bet of that
      user on that game gets the new guesses and lock flag; otherwise a new
      row with a fresh id is appended. Points and timestamps of an existing
      row are left as they were. */
  function UpsertBetWrite(bets: seq<Bet>, w: BetWrite, freshId: Id, now: Millis): (r: seq<Bet>)
    ensures SlotTaken(bets, w) ==>
              |r| == |bets|
              && forall i :: 0 <= i < |bets| ==>
                   r[i] == (if SameSlot(bets[i], w) then bets[i].(betA := w.betA, betB := w.betB, locked := w.locked)
                            else bets[i])
    ensures !SlotTaken(bets, w) ==> r == bets + [NewRow(w, freshId, now)]
  {
    if SlotTaken(bets, w) then
      seq(|bets|, i requires 0 <= i < |bets| =>
        if SameSlot(bets[i], w) then bets[i].(betA := w.betA, betB := w.betB, locked := w.locked) else bets[i])
    else
      bets + [NewRow(w, freshId, now)]
  }

  /** The keyed upsert keeps one bet per user and game, and afterwards that
      bet holds exactly the written guesses and lock flag. */
  lemma UpsertKeepsOneBetPerSlot(bets: seq<Bet>, w: BetWrite, freshId: Id, now: Millis)
    requires OneBetPerSlot(bets)
    ensures var r := UpsertBetWrite(bets, w, freshId, now);
            OneBetPerSlot(r)
            && exists k :: 0 <= k < |r| && SameSlot(r[k], w)
                           && r[k].betA == w.betA && r[k].betB == w.betB && r[k].locked == w.locked
  {
    var r := UpsertBetWrite(bets, w, freshId, now);
    if SlotTaken(bets, w) {
      var i :| 0 <= i < |bets| && SameSlot(bets[i], w);
      assert SameSlot(r[i], w);
    } else {
      assert SameSlot(r[|bets|], w);
    }
  }

  /** Whether `user` already holds a locked bet on `gameId`. */
  predicate HoldsLockedBet(bets: seq<Bet>, user: Id, gameId: Id) {
    exists i :: 0 <= i < |bets| && bets[i].userId == user && bets[i].gameId == gameId && bets[i].locked
  }

  /** `submitBet` with the lock re-checked at write time: a bet the scheduler
      has already locked is refused instead of being reopened. */
  function SubmitBetChecked(user: Option<Id>, games: seq<Game>, bets: seq<Bet>, gameId: Id,
                            betA: int, betB: int, now: Millis): (r: Result<BetWrite, SubmitError>)
    ensures user.Some? && HoldsLockedBet(bets, user.value, gameId) ==> r.Failure?
    ensures r.Success? <==> r == SubmitBet(user, games, gameId, betA, betB, now) && r.Success?
                            && !HoldsLockedBet(bets, user.value, gameId)
  {
    var r := SubmitBet(user, games, gameId, betA, betB, now);
    if r.Success? && HoldsLockedBet(bets, user.value, gameId) then Failure(AlreadyLocked) else r
  }

  /** Under the checked submission a locked bet stays exactly as it was:
      locked, with its guesses unchanged. */
  lemma CheckedSubmitKeepsLockedBets(user: Option<Id>, games: seq<Game>, bets: seq<Bet>, gameId: Id,
                                     betA: int, betB: int, now: Millis, freshId: Id)
    requires SubmitBetChecked(user, games, bets, gameId, betA, betB, now).Success?
    ensures var after := UpsertBetWrite(bets, SubmitBetChecked(user, games, bets, gameId, betA, betB, now).value, freshId, now);
            |after| >= |bets|
            && forall i :: 0 <= i < |bets| && bets[i].locked ==> after[i] == bets[i]
  {
    var w := SubmitBetChecked(user, games, bets, gameId, betA, betB, now).value;
    var after := UpsertBetWrite(bets, w, freshId, now);
    forall i | 0 <= i < |bets| && bets[i].locked
      ensures after[i] == bets[i]
    {
      if SameSlot(bets[i], w) {
        assert false;
      }
    }
  }
}

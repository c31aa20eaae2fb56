/** One game card of the dashboard: the client-side open/closed rule, the
    text the two guess inputs start with, the validation of a submitted guess,
    and what the card shows. */
module GameCard {
  import opened Wrappers
  import opened Rows
  import opened Text
  import Seqs
  import Betting

  datatype BetPair = BetPair(betA: int, betB: int)

  datatype ScorePair = ScorePair(scoreA: int, scoreB: int)

  /** The game a card is given. An absent `locked` flag reads as false. */
  datatype CardGame = CardGame(
    id: Id,
    teamA: string,
    teamB: string,
    dateTime: Millis,
    locked: bool,
    userBet: Option<BetPair>,
    result: Option<ScorePair>)

  /** The card is closed when the game is flagged locked or fewer than 30
      minutes remain before kickoff on the local clock. */
  predicate IsLocked(g: CardGame, now: Millis)
    ensures g.locked ==> IsLocked(g, now)
    ensures now >= g.dateTime ==> IsLocked(g, now)
    ensures !g.locked ==> (IsLocked(g, now) <==> now > g.dateTime - 30 * Minute)
  {
    g.locked || g.dateTime - now < Betting.BettingCutoff
  }

  predicate HasResult(g: CardGame) {
    g.result.Some?
  }

  /** With exactly 30 minutes left an unflagged game is still open; once
      kickoff has passed it is closed whatever its flag. */
  lemma LockBoundary(g: CardGame, now: Millis)
    ensures !g.locked && now == g.dateTime - 30 * Minute ==> !IsLocked(g, now)
    ensures !g.locked && now == g.dateTime - 30 * Minute + 1 ==> IsLocked(g, now)
    ensures now >= g.dateTime ==> IsLocked(g, now)
  {
  }

  /** For an unflagged game the card's rule and the submit-time cutoff agree
      at every instant: the card is closed exactly when a submission on the
      same clock would be refused as too late. */
  lemma LockAgreesWithSubmitCutoff(g: CardGame, games: seq<Game>, i: nat, user: Id, betA: int, betB: int, now: Millis)
    requires !g.locked
    requires i < |games| && games[i].id == g.id && games[i].dateTime == g.dateTime
    requires forall j :: 0 <= j < i ==> games[j].id != g.id
    ensures IsLocked(g, now) <==> Betting.SubmitBet(Some(user), games, g.id, betA, betB, now) == Failure(Betting.BettingClosed)
  {
    Betting.SubmitCutoffBoundary(user, games, i, betA, betB);
    assert Betting.CutoffTime(games, g.id) == Some(g.dateTime - Betting.BettingCutoff) by {
      var k := Seqs.FirstIndex(games, Betting.HasId(g.id));
      assert k == i;
    }
  }

  /** `value?.toString() || ""`: the text an input starts with. */
  function InitialText(v: Option<int>): (s: string)
    ensures v.None? <==> s == ""
  {
    match v
    case Some(n) => IntToString(n)
    case None => ""
  }

  /** The initial texts of the two guess inputs: the existing bet, or empty. */
  function InitialInputs(g: CardGame): (string, string) {
    match g.userBet
    case Some(b) => (InitialText(Some(b.betA)), InitialText(Some(b.betB)))
    case None => (InitialText(None), InitialText(None))
  }

  /** What the card passes to `onBetSubmit`. */
  datatype Submission = Submission(gameId: Id, betA: int, betB: int)

  /** `handleSubmit`: both texts must parse to integers that are not
      negative; otherwise the guess is refused and nothing is submitted. */
  function HandleSubmit(g: CardGame, textA: string, textB: string): (r: Option<Submission>)
    ensures r.Some? <==> ParseInt(textA).Some? && ParseInt(textB).Some?
                         && ParseInt(textA).value >= 0 && ParseInt(textB).value >= 0
    ensures r.Some? ==> r == Some(Submission(g.id, ParseInt(textA).value, ParseInt(textB).value))
  {
    match (ParseInt(textA), ParseInt(textB))
    case (Some(a), Some(b)) => if a < 0 || b < 0 then None else Some(Submission(g.id, a, b))
    case _ => None
  }

  /** Submitting the inputs untouched resubmits the existing bet unchanged;
      with no bet the inputs start empty and nothing can be submitted. */
  lemma UntouchedInputsResubmitBet(g: CardGame)
    ensures g.userBet.Some? && g.userBet.value.betA >= 0 && g.userBet.value.betB >= 0 ==>
              HandleSubmit(g, InitialInputs(g).0, InitialInputs(g).1)
              == Some(Submission(g.id, g.userBet.value.betA, g.userBet.value.betB))
    ensures g.userBet.None? ==> HandleSubmit(g, InitialInputs(g).0, InitialInputs(g).1).None?
  {
    if g.userBet.Some? {
      ParseIntToString(g.userBet.value.betA);
      ParseIntToString(g.userBet.value.betB);
    }
  }

  /** A guess with a negative side is refused. */
  lemma NegativeGuessRefused(g: CardGame, textA: string, textB: string)
    requires (ParseInt(textA).Some? && ParseInt(textA).value < 0) || (ParseInt(textB).Some? && ParseInt(textB).value < 0)
    ensures HandleSubmit(g, textA, textB) == None
  {
  }

  datatype Badge = Aberto | Fechado

  datatype CardView = CardView(
    badge: Badge,
    showResult: bool,
    inputsDisabled: bool,
    showSubmit: bool,
    submitDisabled: bool,
    showCurrentBet: bool)

  /** What the card renders at `now` with the inputs holding `textA`/`textB`. */
  function View(g: CardGame, now: Millis, textA: string, textB: string): (v: CardView)
    ensures v.badge == Fechado <==> IsLocked(g, now)
    ensures v.showSubmit <==> !v.inputsDisabled
    ensures v.showResult <==> g.result.Some?
    ensures HandleSubmit(g, textA, textB).Some? ==> !v.submitDisabled
    ensures v.showCurrentBet <==> g.userBet.Some?
  {
    var locked := IsLocked(g, now);
    CardView(
      if locked then Fechado else Aberto,
      HasResult(g),
      locked,
      !locked,
      textA == "" || textB == "",
      g.userBet.Some?)
  }

  /** A closed card offers no way to bet: no submit button and both inputs
      disabled; an open card offers the button, enabled once both inputs
      hold text. */
  lemma ClosedCardTakesNoBet(g: CardGame, now: Millis, textA: string, textB: string)
    ensures var v := View(g, now, textA, textB);
            (v.badge == Fechado <==> IsLocked(g, now))
            && (IsLocked(g, now) ==> !v.showSubmit && v.inputsDisabled)
            && (!IsLocked(g, now) ==> v.showSubmit && !v.inputsDisabled
                                      && (v.submitDisabled <==> textA == "" || textB == ""))
            && (v.showResult <==> g.result.Some?)
  {
  }
}

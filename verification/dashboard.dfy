/** The dashboard page: its list of game cards, the split into games still
    open for guesses and games closed, the local update when a card submits
    a guess, and the two counters. */
module Dashboard {
  import opened Wrappers
  import opened Seqs
  import opened Rows
  import opened GameCard

  /** A card is listed as open when the game is neither flagged locked nor
      has a result. The page applies no clock here. */
  function IsOpenGame(): CardGame -> bool {
    (g: CardGame) => !g.locked && g.result.None?
  }

  function IsClosedGame(): CardGame -> bool {
    (g: CardGame) => g.locked || g.result.Some?
  }

  /** The open list: exactly the unflagged games without a result, in page order. */
  function OpenGames(games: seq<CardGame>): (r: seq<CardGame>)
    ensures forall i :: 0 <= i < |r| ==> r[i] in games && !r[i].locked && r[i].result.None?
    ensures forall i :: 0 <= i < |games| && !games[i].locked && games[i].result.None? ==> games[i] in r
    ensures IsSubsequence(r, games)
  {
    FilterSubsequence(games, IsOpenGame());
    Filter(games, IsOpenGame())
  }

  /** The closed list: exactly the games flagged locked or holding a result, in page order. */
  function ClosedGames(games: seq<CardGame>): (r: seq<CardGame>)
    ensures forall i :: 0 <= i < |r| ==> r[i] in games && (r[i].locked || r[i].result.Some?)
    ensures forall i :: 0 <= i < |games| && (games[i].locked || games[i].result.Some?) ==> games[i] in r
    ensures IsSubsequence(r, games)
  {
    FilterSubsequence(games, IsClosedGame());
    Filter(games, IsClosedGame())
  }

  /** Every game is in exactly one of the two lists: the closed list is the
      complementary filter of the open one, and the two lengths add up to
      the number of games on the page. */
  lemma OpenClosedPartition(games: seq<CardGame>)
    ensures ClosedGames(games) == Filter(games, Not(IsOpenGame()))
    ensures |OpenGames(games)| + |ClosedGames(games)| == |games|
    ensures forall i :: 0 <= i < |games| ==> (games[i] in OpenGames(games) <==> games[i] !in ClosedGames(games))
  {
    FilterSame(games, IsClosedGame(), Not(IsOpenGame()));
    FilterSplit(games, IsOpenGame());
  }

  /** Together the two lists hold each game exactly as often as the page. */
  lemma OpenClosedKeepEveryGame(games: seq<CardGame>)
    ensures multiset(OpenGames(games)) + multiset(ClosedGames(games)) == multiset(games)
  {
    FilterSame(games, IsClosedGame(), Not(IsOpenGame()));
    FilterSplit(games, IsOpenGame());
  }

  /** `handleBetSubmit`: the card with the given id gets the guess as its
      bet; every other card, and the order, stay as they were. */
  function HandleBetSubmit(games: seq<CardGame>, gameId: Id, betA: int, betB: int): (r: seq<CardGame>)
    ensures |r| == |games|
    ensures forall i :: 0 <= i < |games| ==>
              if games[i].id == gameId then r[i] == games[i].(userBet := Some(BetPair(betA, betB)))
              else r[i] == games[i]
  {
    seq(|games|, i requires 0 <= i < |games| =>
      if games[i].id == gameId then games[i].(userBet := Some(BetPair(betA, betB))) else games[i])
  }

  /** A guess for an id that is not on the page changes nothing. */
  lemma UnknownGameUnchanged(games: seq<CardGame>, gameId: Id, betA: int, betB: int)
    requires forall i :: 0 <= i < |games| ==> games[i].id != gameId
    ensures HandleBetSubmit(games, gameId, betA, betB) == games
  {
  }

  /** The last guess wins: a second submission for the same game replaces
      the first, as if the first had never been made. */
  lemma LastGuessWins(games: seq<CardGame>, gameId: Id, a1: int, b1: int, a2: int, b2: int)
    ensures HandleBetSubmit(HandleBetSubmit(games, gameId, a1, b1), gameId, a2, b2)
            == HandleBetSubmit(games, gameId, a2, b2)
  {
  }

  /** Submitting a guess never moves a card between the open and the closed
      list: the flag and result it is split on are untouched. */
  lemma BetSubmitKeepsSplit(games: seq<CardGame>, gameId: Id, betA: int, betB: int)
    ensures var r := HandleBetSubmit(games, gameId, betA, betB);
            |OpenGames(r)| == |OpenGames(games)| && |ClosedGames(r)| == |ClosedGames(games)|
  {
    var r := HandleBetSubmit(games, gameId, betA, betB);
    OpenClosedPartition(games);
    OpenClosedPartition(r);
    SameOpenCount(games, r);
  }

  /** Two page states whose cards agree on being open, card by card, have
      as many open cards. */
  lemma {:induction false} SameOpenCount(a: seq<CardGame>, b: seq<CardGame>)
    requires |a| == |b|
    requires forall i :: 0 <= i < |a| ==> IsOpenGame()(a[i]) == IsOpenGame()(b[i])
    ensures |OpenGames(a)| == |OpenGames(b)|
    decreases |a|
  {
    if |a| > 0 {
      SameOpenCount(a[1..], b[1..]);
    }
  }

  function HasBet(): CardGame -> bool {
    (g: CardGame) => g.userBet.Some?
  }

  /** The "Palpites Feitos" counter: the cards holding a bet. */
  function BetsMade(games: seq<CardGame>): (n: nat)
    ensures n <= |games|
    ensures n == 0 <==> forall i :: 0 <= i < |games| ==> games[i].userBet.None?
  {
    var r := Filter(games, HasBet());
    assert r != [] ==> r[0] in games && r[0].userBet.Some?;
    Count(games, HasBet())
  }

  /** The "Jogos Disponíveis" counter: the open cards. */
  function GamesAvailable(games: seq<CardGame>): (n: nat)
    ensures n + |ClosedGames(games)| == |games|
  {
    OpenClosedPartition(games);
    |OpenGames(games)|
  }

  function NewBetOn(gameId: Id): CardGame -> bool {
    (g: CardGame) => g.id == gameId && g.userBet.None?
  }

  /** A submission raises "Palpites Feitos" by the number of cards with
      that id that held no bet, and leaves "Jogos Disponíveis" alone. */
  lemma {:induction false} CountersAfterBetSubmit(games: seq<CardGame>, gameId: Id, betA: int, betB: int)
    ensures var r := HandleBetSubmit(games, gameId, betA, betB);
            BetsMade(r) == BetsMade(games) + Count(games, NewBetOn(gameId))
            && GamesAvailable(r) == GamesAvailable(games)
    decreases |games|
  {
    BetSubmitKeepsSplit(games, gameId, betA, betB);
    if |games| > 0 {
      var r := HandleBetSubmit(games, gameId, betA, betB);
      CountersAfterBetSubmit(games[1..], gameId, betA, betB);
      assert r[1..] == HandleBetSubmit(games[1..], gameId, betA, betB);
    }
  }
}

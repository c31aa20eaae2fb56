/** The admin page's local game list: creating a game from the three form
    fields, recording a final score, and the per-game card that reads the
    two score inputs. */
module Admin {
  import opened Wrappers
  import opened Seqs
  import opened Rows
  import opened Text

  /** A game as the admin page holds it; `dateTime` is the raw text of the
      date input. */
  datatype AdminGame = AdminGame(
    id: Id,
    teamA: string,
    teamB: string,
    dateTime: string,
    scoreA: Option<int>,
    scoreB: Option<int>,
    finished: bool)

  datatype GameForm = GameForm(teamA: string, teamB: string, dateTime: string)

  const EmptyForm := GameForm("", "", "")

  datatype AdminState = AdminState(games: seq<AdminGame>, form: GameForm)

  predicate FormComplete(f: GameForm) {
    f.teamA != "" && f.teamB != "" && f.dateTime != ""
  }

  /** `handleCreateGame`. An empty field leaves the page as it was;
      otherwise the game is appended, unfinished and without a score, under
      `newId` (the page uses the current clock's text), and the form is
      cleared. */
  function HandleCreateGame(st: AdminState, newId: Id): (r: AdminState)
    ensures !FormComplete(st.form) ==> r == st
    ensures FormComplete(st.form) ==>
              && |r.games| == |st.games| + 1
              && r.games[..|st.games|] == st.games
              && r.games[|st.games|] == AdminGame(newId, st.form.teamA, st.form.teamB, st.form.dateTime, None, None, false)
              && r.form == EmptyForm
  {
    if !FormComplete(st.form) then st
    else
      var f := st.form;
      AdminState(st.games + [AdminGame(newId, f.teamA, f.teamB, f.dateTime, None, None, false)], EmptyForm)
  }

  /** `handleFinishGame`: the game with the id gets the two scores and is
      marked finished; every other game stays as it was. There is no guard
      against finishing a game twice. */
  function HandleFinishGame(games: seq<AdminGame>, gameId: Id, scoreA: int, scoreB: int): (r: seq<AdminGame>)
    ensures |r| == |games|
    ensures forall i :: 0 <= i < |games| ==>
              if games[i].id == gameId
              then r[i] == games[i].(scoreA := Some(scoreA), scoreB := Some(scoreB), finished := true)
              else r[i] == games[i]
  {
    seq(|games|, i requires 0 <= i < |games| =>
      if games[i].id == gameId
      then games[i].(scoreA := Some(scoreA), scoreB := Some(scoreB), finished := true)
      else games[i])
  }

  /** Finishing again overwrites: the second score replaces the first. */
  lemma FinishOverwrites(games: seq<AdminGame>, gameId: Id, a1: int, b1: int, a2: int, b2: int)
    ensures HandleFinishGame(HandleFinishGame(games, gameId, a1, b1), gameId, a2, b2)
            == HandleFinishGame(games, gameId, a2, b2)
  {
  }

  function IsFinished(): AdminGame -> bool {
    (g: AdminGame) => g.finished
  }

  /** Finishing never reopens a game, and it finishes at most the games
      with that id: the number of finished games grows by exactly the number
      of unfinished games carrying the id. */
  lemma {:induction false} FinishCountsOnce(games: seq<AdminGame>, gameId: Id, scoreA: int, scoreB: int)
    ensures Count(HandleFinishGame(games, gameId, scoreA, scoreB), IsFinished())
            == Count(games, IsFinished()) + Count(games, UnfinishedWithId(gameId))
    decreases |games|
  {
    if |games| > 0 {
      FinishCountsOnce(games[1..], gameId, scoreA, scoreB);
      assert HandleFinishGame(games, gameId, scoreA, scoreB)[1..] == HandleFinishGame(games[1..], gameId, scoreA, scoreB);
    }
  }

  function UnfinishedWithId(gameId: Id): AdminGame -> bool {
    (g: AdminGame) => g.id == gameId && !g.finished
  }

  /** A game just created under a fresh id can then be finished: it is the
      last game, carries the score, and nothing before it changed. */
  lemma CreatedGameCanBeFinished(st: AdminState, newId: Id, scoreA: int, scoreB: int)
    requires FormComplete(st.form)
    requires forall i :: 0 <= i < |st.games| ==> st.games[i].id != newId
    ensures var created := HandleCreateGame(st, newId).games;
            var finished := HandleFinishGame(created, newId, scoreA, scoreB);
            finished[..|st.games|] == st.games
            && finished[|st.games|] == AdminGame(newId, st.form.teamA, st.form.teamB, st.form.dateTime,
                                                 Some(scoreA), Some(scoreB), true)
  {
    var created := HandleCreateGame(st, newId).games;
    var finished := HandleFinishGame(created, newId, scoreA, scoreB);
    assert forall i :: 0 <= i < |st.games| ==> finished[i] == st.games[i];
  }

  /** What a card passes to `onFinishGame`. */
  datatype FinishRequest = FinishRequest(gameId: Id, scoreA: int, scoreB: int)

  /** `GameAdminCard.handleSubmit`: both texts must parse to integers; a
      negative number is passed on like any other. */
  function AdminSubmit(g: AdminGame, textA: string, textB: string): (r: Option<FinishRequest>)
    ensures r.Some? <==> ParseInt(textA).Some? && ParseInt(textB).Some?
    ensures r.Some? ==> r.value == FinishRequest(g.id, ParseInt(textA).value, ParseInt(textB).value)
  {
    match (ParseInt(textA), ParseInt(textB))
    case (Some(a), Some(b)) => Some(FinishRequest(g.id, a, b))
    case _ => None
  }

  /** Any pair of integers typed as the page would show them reaches
      `onFinishGame` unchanged, negative ones included. */
  lemma AnyScoreAccepted(g: AdminGame, a: int, b: int)
    ensures AdminSubmit(g, IntToString(a), IntToString(b)) == Some(FinishRequest(g.id, a, b))
  {
    ParseIntToString(a);
    ParseIntToString(b);
  }

  datatype AdminCardView = AdminCardView(showScoreInputs: bool, showResult: bool, submitDisabled: bool)

  /** The card shows the two score inputs and the button only while the game
      is unfinished, and the result once it is finished; the button is
      disabled while either input is empty. */
  function CardView(g: AdminGame, textA: string, textB: string): (v: AdminCardView)
    ensures v.showScoreInputs != v.showResult
    ensures v.showResult <==> g.finished
    ensures AdminSubmit(g, textA, textB).Some? ==> !v.submitDisabled
  {
    AdminCardView(!g.finished, g.finished, textA == "" || textB == "")
  }

  /** After a score is recorded the game's card offers no more inputs and
      shows the result; the card of every other game is as before. */
  lemma FinishedCardHidesInputs(games: seq<AdminGame>, gameId: Id, scoreA: int, scoreB: int,
                                i: nat, textA: string, textB: string)
    requires i < |games|
    ensures var r := HandleFinishGame(games, gameId, scoreA, scoreB);
            (games[i].id == gameId ==> !CardView(r[i], textA, textB).showScoreInputs
                                       && CardView(r[i], textA, textB).showResult)
            && (games[i].id != gameId ==> CardView(r[i], textA, textB) == CardView(games[i], textA, textB))
  {
  }

  /** The button's rule and the submit rule agree on empty inputs: an input
      left empty never yields a request. */
  lemma EmptyInputNeverSubmits(g: AdminGame, textA: string, textB: string)
    requires CardView(g, textA, textB).submitDisabled
    ensures AdminSubmit(g, textA, textB) == None
  {
  }
}

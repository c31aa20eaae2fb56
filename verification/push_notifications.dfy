/** The notification function the scheduler invokes: it resolves the
    audience of a `game_reminder` or `results_available` request, keeps the
    push subscriptions of that audience, sends one message per subscription
    with the request's single payload, and reports how many sends succeeded
    and failed. The push service's answers are a parameter: `delivered(i, m)`
    says whether the `i`-th send, of message `m`, got an ok response. */
module PushNotifications {
  import opened Wrappers
  import opened Seqs
  import opened Rows

  /** The body of a request: its `type` and the id that goes with it. */
  datatype Request =
    | GameReminderRequest(gameId: Id)
    | ResultsAvailableRequest(roundId: Id)
    | OtherRequest(kind: string)

  datatype Subscription = Subscription(id: Id, userId: Id, endpoint: string)

  datatype PayloadData = GameData(gameId: Id) | RoundData(roundId: Id)

  datatype Payload = Payload(title: string, body: string, icon: string, data: PayloadData)

  /** The body posted to the push service for one subscription. */
  datatype Message = Message(to: string, title: string, body: string, icon: string, data: PayloadData)

  datatype Response =
    | BadRequest(error: string)
    | NoSubscriptions
    | Sent(messages: seq<Message>, successful: nat, failed: nat)

  const Icon := "/icon-192x192.png"

  const GameNotFound := "Game not found"

  /** `endpoint.split('/').pop()`: the text after the last '/', or all of it
      when there is none. */
  function LastSegment(s: string): (r: string)
    ensures |r| <= |s| && r == s[|s| - |r|..]
    ensures forall i :: 0 <= i < |r| ==> r[i] != '/'
    ensures |r| < |s| ==> s[|s| - |r| - 1] == '/'
    decreases |s|
  {
    if |s| == 0 || s[|s| - 1] == '/' then ""
    else LastSegment(s[..|s| - 1]) + [s[|s| - 1]]
  }

  function UserIdOf(u: User): Id {
    u.id
  }

  function BettorOf(b: Bet): Id {
    b.userId
  }

  /** The users holding a bet on `gameId`. */
  function Bettors(bets: seq<Bet>, gameId: Id): set<Id> {
    set b | b in bets && b.gameId == gameId :: b.userId
  }

  function WithoutBetIn(bettors: set<Id>): User -> bool {
    (u: User) => u.id !in bettors
  }

  /** Reminder audience: every user, in table order, who holds no bet on the game. */
  function ReminderAudience(users: seq<User>, bets: seq<Bet>, gameId: Id): (r: seq<Id>)
    ensures |r| <= |users|
    ensures forall i :: 0 <= i < |users| ==>
              (users[i].id in r <==> forall k :: 0 <= k < |bets| && bets[k].gameId == gameId ==> bets[k].userId != users[i].id)
    ensures forall i :: 0 <= i < |r| ==> exists j :: 0 <= j < |users| && users[j].id == r[i]
    ensures IsSubsequence(r, Map(users, UserIdOf))
    ensures NoDuplicates(Map(users, UserIdOf)) ==> NoDuplicates(r)
  {
    ReminderAudienceMembers(users, bets, gameId);
    ReminderAudienceOrder(users, bets, gameId);
    Map(Filter(users, WithoutBetIn(Bettors(bets, gameId))), UserIdOf)
  }

  /** The audience lists users in the order the user query returns them, and
      names each user once as long as the user ids are distinct. */
  lemma ReminderAudienceOrder(users: seq<User>, bets: seq<Bet>, gameId: Id)
    ensures var r := Map(Filter(users, WithoutBetIn(Bettors(bets, gameId))), UserIdOf);
            && IsSubsequence(r, Map(users, UserIdOf))
            && (NoDuplicates(Map(users, UserIdOf)) ==> NoDuplicates(r))
  {
    var kept := Filter(users, WithoutBetIn(Bettors(bets, gameId)));
    FilterSubsequence(users, WithoutBetIn(Bettors(bets, gameId)));
    MapSubsequence(kept, users, UserIdOf);
    if NoDuplicates(Map(users, UserIdOf)) {
      SubsequenceNoDuplicates(Map(kept, UserIdOf), Map(users, UserIdOf));
    }
  }

  lemma ReminderAudienceMembers(users: seq<User>, bets: seq<Bet>, gameId: Id)
    ensures var r := Map(Filter(users, WithoutBetIn(Bettors(bets, gameId))), UserIdOf);
            (forall i :: 0 <= i < |users| ==>
               (users[i].id in r <==> forall k :: 0 <= k < |bets| && bets[k].gameId == gameId ==> bets[k].userId != users[i].id))
            && forall i :: 0 <= i < |r| ==> exists j :: 0 <= j < |users| && users[j].id == r[i]
  {
    var bettors := Bettors(bets, gameId);
    var kept := Filter(users, WithoutBetIn(bettors));
    var r := Map(kept, UserIdOf);
    forall i | 0 <= i < |users|
      ensures users[i].id in r <==> forall k :: 0 <= k < |bets| && bets[k].gameId == gameId ==> bets[k].userId != users[i].id
    {
      BettorMembership(users, bets, gameId, i);
    }
    forall i | 0 <= i < |r| ensures exists j :: 0 <= j < |users| && users[j].id == r[i] {
      var j :| 0 <= j < |users| && users[j] == kept[i];
    }
  }

  lemma BettorMembership(users: seq<User>, bets: seq<Bet>, gameId: Id, i: nat)
    requires i < |users|
    ensures var r := Map(Filter(users, WithoutBetIn(Bettors(bets, gameId))), UserIdOf);
            users[i].id in r <==> forall k :: 0 <= k < |bets| && bets[k].gameId == gameId ==> bets[k].userId != users[i].id
  {
    var bettors := Bettors(bets, gameId);
    var kept := Filter(users, WithoutBetIn(bettors));
    var r := Map(kept, UserIdOf);
    if users[i].id in bettors {
      var b :| b in bets && b.gameId == gameId && b.userId == users[i].id;
      var k :| 0 <= k < |bets| && bets[k] == b;
    } else {
      assert WithoutBetIn(bettors)(users[i]);
      var m :| 0 <= m < |kept| && kept[m] == users[i];
      assert r[m] == users[i].id;
      forall k | 0 <= k < |bets| && bets[k].gameId == gameId
        ensures bets[k].userId != users[i].id
      {
        assert bets[k].userId in bettors;
      }
    }
  }

  /** The ids of the games of a round. */
  function RoundGameIds(games: seq<Game>, roundId: Id): set<Id> {
    set g | g in games && g.roundId == roundId :: g.id
  }

  function OnGames(ids: set<Id>): Bet -> bool {
    (b: Bet) => b.gameId in ids
  }

  /** Results audience: each user holding a bet on some game of the round,
      once, in order of their first such bet. */
  function ResultsAudience(games: seq<Game>, bets: seq<Bet>, roundId: Id): (r: seq<Id>)
    ensures NoDuplicates(r)
    ensures forall k :: 0 <= k < |bets| && bets[k].gameId in RoundGameIds(games, roundId) ==> bets[k].userId in r
    ensures forall i :: 0 <= i < |r| ==>
              exists k :: 0 <= k < |bets| && bets[k].userId == r[i] && bets[k].gameId in RoundGameIds(games, roundId)
  {
    var ids := RoundGameIds(games, roundId);
    var onRound := Filter(bets, OnGames(ids));
    var userIds := Map(onRound, BettorOf);
    var r := Distinct(userIds);
    forall k | 0 <= k < |bets| && bets[k].gameId in ids ensures bets[k].userId in r {
      assert OnGames(ids)(bets[k]);
      var m :| 0 <= m < |onRound| && onRound[m] == bets[k];
      assert userIds[m] == bets[k].userId;
    }
    forall i | 0 <= i < |r|
      ensures exists k :: 0 <= k < |bets| && bets[k].userId == r[i] && bets[k].gameId in ids
    {
      var m :| 0 <= m < |userIds| && userIds[m] == r[i];
      var k :| 0 <= k < |bets| && bets[k] == onRound[m];
      assert OnGames(ids)(onRound[m]);
    }
    r
  }

  function ReminderPayload(g: Game, gameId: Id): Payload {
    Payload(
      "⏰ Tempo esgotando!",
      "Você ainda não fez seu palpite para " + g.teamA + " x " + g.teamB + ". Restam 30 minutos!",
      Icon,
      GameData(gameId))
  }

  function ResultsPayload(roundId: Id): Payload {
    Payload(
      "🎯 Resultados atualizados!",
      "Novos placares foram registrados. Confira sua pontuação!",
      Icon,
      RoundData(roundId))
  }

  /** The audience of a request and the payload to send (the first of the
      request's notifications; an unknown type has none). A reminder for a
      game that the single-row lookup does not find is an error. */
  datatype Plan = Plan(audience: seq<Id>, payload: Option<Payload>)

  function Resolve(req: Request, games: seq<Game>, users: seq<User>, bets: seq<Bet>): (r: Result<Plan, string>)
    ensures r.Failure? <==> req.GameReminderRequest? && |Filter(games, GameWithId(req.gameId))| != 1
    ensures r.Failure? ==> r.error == GameNotFound
    ensures r.Success? && req.GameReminderRequest? ==>
              r.value.audience == ReminderAudience(users, bets, req.gameId)
              && r.value.payload.Some? && r.value.payload.value.data == GameData(req.gameId)
    ensures r.Success? && req.ResultsAvailableRequest? ==>
              r.value.audience == ResultsAudience(games, bets, req.roundId)
              && r.value.payload == Some(ResultsPayload(req.roundId))
    ensures req.OtherRequest? ==> r == Success(Plan([], None))
  {
    match req
    case GameReminderRequest(gameId) =>
      var found := Filter(games, GameWithId(gameId));
      if |found| != 1 then Failure(GameNotFound)
      else Success(Plan(ReminderAudience(users, bets, gameId), Some(ReminderPayload(found[0], gameId))))
    case ResultsAvailableRequest(roundId) =>
      Success(Plan(ResultsAudience(games, bets, roundId), Some(ResultsPayload(roundId))))
    case OtherRequest(_) =>
      Success(Plan([], None))
  }

  function GameWithId(id: Id): Game -> bool {
    (g: Game) => g.id == id
  }

  function ForAudience(audience: set<Id>): Subscription -> bool {
    (s: Subscription) => s.userId in audience
  }

  /** The subscriptions whose user is in the audience, in table order. */
  function MatchedSubscriptions(subscriptions: seq<Subscription>, audience: seq<Id>): (r: seq<Subscription>)
    ensures forall i :: 0 <= i < |r| ==> r[i] in subscriptions && r[i].userId in audience
    ensures forall i :: 0 <= i < |subscriptions| && subscriptions[i].userId in audience ==> subscriptions[i] in r
    ensures IsSubsequence(r, subscriptions)
  {
    FilterSubsequence(subscriptions, ForAudience(Elements(audience)));
    Filter(subscriptions, ForAudience(Elements(audience)))
  }

  function ToMessage(p: Payload, s: Subscription): Message {
    Message(LastSegment(s.endpoint), p.title, p.body, p.icon, p.data)
  }

  function IsTrue(b: bool): bool {
    b
  }

  /** Whether each send, in order, got an ok answer. */
  function Outcomes(messages: seq<Message>, delivered: (nat, Message) -> bool): (r: seq<bool>)
    ensures |r| == |messages|
    ensures forall i :: 0 <= i < |messages| ==> r[i] == delivered(i, messages[i])
  {
    seq(|messages|, i requires 0 <= i < |messages| => delivered(i, messages[i]))
  }

  /** One send per subscription, each with the same payload; a send counts
      as successful only when the push service answered ok. Without a
      payload every send fails before anything is posted. */
  function Deliver(matched: seq<Subscription>, payload: Option<Payload>,
                   delivered: (nat, Message) -> bool): (r: Response)
    ensures r.Sent?
    ensures r.successful + r.failed == |matched|
    ensures payload.Some? ==>
              |r.messages| == |matched|
              && (forall i :: 0 <= i < |matched| ==>
                    r.messages[i].to == LastSegment(matched[i].endpoint)
                    && r.messages[i].title == payload.value.title
                    && r.messages[i].body == payload.value.body
                    && r.messages[i].icon == payload.value.icon
                    && r.messages[i].data == payload.value.data)
              && r.successful == Count(Outcomes(r.messages, delivered), IsTrue)
              && r.failed == Count(Outcomes(r.messages, delivered), Not(IsTrue))
    ensures payload.None? ==> r == Sent([], 0, |matched|)
  {
    match payload
    case None => Sent([], 0, |matched|)
    case Some(p) =>
      var messages := seq(|matched|, i requires 0 <= i < |matched| => ToMessage(p, matched[i]));
      var outcomes := Outcomes(messages, delivered);
      FilterSplit(outcomes, IsTrue);
      Sent(messages, Count(outcomes, IsTrue), Count(outcomes, Not(IsTrue)))
  }

  /** The whole handler. */
  function Handle(req: Request, games: seq<Game>, users: seq<User>, bets: seq<Bet>,
                  subscriptions: seq<Subscription>, delivered: (nat, Message) -> bool): (r: Response)
    ensures r.BadRequest? <==> Resolve(req, games, users, bets).Failure?
    ensures r.NoSubscriptions? <==>
              Resolve(req, games, users, bets).Success?
              && |MatchedSubscriptions(subscriptions, Resolve(req, games, users, bets).value.audience)| == 0
    ensures r.Sent? ==>
              var matched := MatchedSubscriptions(subscriptions, Resolve(req, games, users, bets).value.audience);
              r.successful + r.failed == |matched| > 0
  {
    match Resolve(req, games, users, bets)
    case Failure(e) => BadRequest(e)
    case Success(plan) =>
      var matched := MatchedSubscriptions(subscriptions, plan.audience);
      if |matched| == 0 then NoSubscriptions else Deliver(matched, plan.payload, delivered)
  }

  /** A reminder for a game that is not in the table is refused before any
      audience is computed, and nothing is sent. */
  lemma MissingGameIsBadRequest(gameId: Id, games: seq<Game>, users: seq<User>, bets: seq<Bet>,
                                subscriptions: seq<Subscription>, delivered: (nat, Message) -> bool)
    requires forall j :: 0 <= j < |games| ==> games[j].id != gameId
    ensures Handle(GameReminderRequest(gameId), games, users, bets, subscriptions, delivered) == BadRequest(GameNotFound)
  {
  }

  /** A request of any other type reaches nobody. */
  lemma OtherRequestReachesNobody(kind: string, games: seq<Game>, users: seq<User>, bets: seq<Bet>,
                                  subscriptions: seq<Subscription>, delivered: (nat, Message) -> bool)
    ensures Handle(OtherRequest(kind), games, users, bets, subscriptions, delivered) == NoSubscriptions
  {
    assert Elements<Id>([]) == {};
    FilterNone(subscriptions, ForAudience(Elements([])));
  }

  /** The device token is the last path segment of the endpoint. */
  lemma {:induction false} TokenIsLastSegment(prefix: string, token: string)
    requires forall i :: 0 <= i < |token| ==> token[i] != '/'
    ensures LastSegment(prefix + "/" + token) == token
    decreases |token|
  {
    var s := prefix + "/" + token;
    if |token| > 0 {
      var shorter := token[..|token| - 1];
      assert s[..|s| - 1] == prefix + "/" + shorter;
      TokenIsLastSegment(prefix, shorter);
      assert token == shorter + [token[|token| - 1]];
    }
  }
}

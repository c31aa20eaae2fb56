/** The rows of the contest's four tables (bets, games, rounds, users) as
    immutable records. Instants are whole milliseconds since the epoch; an
    `id` or foreign key is an opaque string. */
module Rows {
  import opened Wrappers

  type Id = string

  /** An instant or a duration in milliseconds. */
  type Millis = int

  const Minute: Millis := 60 * 1000

  /** A score guess by one user for one game. `pointsAwarded` stays `None`
      until the database scores the bet. */
  datatype Bet = Bet(
    id: Id,
    userId: Id,
    gameId: Id,
    betA: int,
    betB: int,
    locked: bool,
    pointsAwarded: Option<int>,
    createdAt: Millis,
    updatedAt: Millis)

  /** A match of one round; `scoreA`/`scoreB` are `None` until a result is recorded. */
  datatype Game = Game(
    id: Id,
    roundId: Id,
    teamA: string,
    teamB: string,
    dateTime: Millis,
    finished: bool,
    scoreA: Option<int>,
    scoreB: Option<int>,
    createdAt: Millis,
    updatedAt: Millis)

  /** A round is either open for betting ('aberta') or closed ('fechada'). */
  datatype RoundStatus = Aberta | Fechada

  datatype Round = Round(
    id: Id,
    name: string,
    status: RoundStatus,
    createdAt: Millis,
    updatedAt: Millis)

  datatype User = User(
    id: Id,
    email: string,
    nickname: string,
    pointsTotal: int,
    role: string,
    createdAt: Millis,
    updatedAt: Millis)
}

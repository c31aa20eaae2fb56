# Palpites da Hora — a Dafny model of the bet lifecycle

Palpites da Hora is a score-prediction contest. Players guess the final
score of each game of a round ("palpites"). A guess can be changed until
30 minutes before kickoff. A periodic scheduler then locks the bets and
sends push reminders and results notifications. A ranking table orders
the players by their points.

This project models that lifecycle as pure functions over immutable
records. Instants are whole milliseconds, and each table is a sequence of
rows. Every handler and every scheduler run is a function from the old
state (plus the current instant) to the new state and the effects it
emits.

The modules follow the source's structure:

- `Rows`: the bets, games, rounds and users rows.
- `Betting`: the current-round choice, `submitBet`, the bet write as the
  call issues it, and the keyed upsert it evidently intends.
- `GameCard`: a game card's open/closed rule, input validation and view.
- `Scheduler`: one run of the scheduler as `Tick(now, games, bets)`.
- `PushNotifications`: audience resolution and delivery accounting of the
  notification function.
- `LockRace`: how the scheduler's lock and a resubmission interact.
- `Ranking`: the sorted ranking, its positions and badges, and the
  advertised scoring rule.
- `Dashboard`, `Admin`, `Lineup` ("Meu Time") and `Transfers`: the local
  state transitions of those pages.
- `AuthForms`: the registration and login validators.
- `PushKey`: decoding the push public key, following sections 4 and 5 of
  RFC 4648.
- `Seqs`, `Text` and `Wrappers`: shared helpers. They cover
  `filter`/`map`/`find` and order-keeping de-duplication, `toString` and a
  decimal `parseInt`, and `Option`/`Result`.

Nothing talks to a database, a clock or the network. The current instant,
the table contents, fresh ids and the push service's answers are all
parameters.

## Model

| member | source | states |
|---|---|---|
| `Betting.CurrentRound` | src/hooks/useGames.ts:17-28 | no rounds gives none; otherwise the first open ('aberta') round in the given order, or the first round when none is open |
| `Betting.CurrentRoundIsNewest` | src/hooks/useGames.ts:19-28 | when the list is newest first, the chosen round is the newest open round, or the newest round when none is open |
| `Betting.CutoffTime` | src/hooks/useGames.ts:73-75 | the cutoff is undefined exactly when the game id is not in the loaded list |
| `Betting.SubmitBet` | src/hooks/useGames.ts:67-94 | no user is refused before anything else; past the cutoff is refused; otherwise the write carries the user, game and both guesses unchanged, with `locked` false |
| `Betting.SubmitCutoffBoundary` | src/hooks/useGames.ts:75-77 | exactly 30 minutes before kickoff is accepted; one millisecond later is refused |
| `Betting.SubmitUnknownGame` | src/hooks/useGames.ts:73-77 | a game missing from the list never trips the cutoff, so the bet is written |
| `Betting.InsertBetWrite` | src/hooks/useGames.ts:86-94 | as written: with no conflict target and no `id`, the write never changes an existing row; it appends one row under a fresh id carrying the user, game, guesses and lock; with a unique (user, game) index it is refused exactly when that slot is taken |
| `Betting.ResubmitAddsSecondBet` | src/hooks/useGames.ts:86-94 | without a unique index, changing a guess keeps the old bet and adds a second bet of the same user on the same game |
| `Betting.UniqueSlotRefusesChanges` | src/hooks/useGames.ts:86-94 | with a unique index, a write to a taken slot is refused, so a guess can never be changed; a write to a free slot keeps one bet per slot |
| `Betting.UpsertBetWrite` | src/hooks/useGames.ts:86-94 | corrected: the upsert keyed on (user, game) gives an existing bet the new guesses and lock and leaves every other row alone; with no such bet it appends one new row |
| `Betting.UpsertKeepsOneBetPerSlot` | src/hooks/useGames.ts:86-94 | the keyed upsert keeps at most one bet per user and game, and that bet then holds the written guesses and lock |
| `Betting.SubmitBetChecked` | src/hooks/useGames.ts:72-94 | corrected submission: a user holding a locked bet on the game is refused; otherwise it is the same as `submitBet` |
| `Betting.CheckedSubmitKeepsLockedBets` | src/hooks/useGames.ts:86-94 | under the checked submission no locked bet is changed by the keyed upsert |
| `GameCard.IsLocked` | src/components/Game/GameCard.tsx:34 | a game flagged locked is closed; past kickoff every game is closed; an unflagged game is closed exactly from the first millisecond after the 30-minute cutoff |
| `GameCard.LockBoundary` | src/components/Game/GameCard.tsx:32-34 | an unflagged card with exactly 30 minutes left is open, and one millisecond later it is closed; past kickoff it is always closed |
| `GameCard.LockAgreesWithSubmitCutoff` | src/components/Game/GameCard.tsx:34 | for an unflagged game the card is closed exactly when `submitBet` on the same clock would refuse it as too late |
| `GameCard.InitialText` | src/components/Game/GameCard.tsx:28-29 | an input starts empty exactly when there is no existing bet |
| `GameCard.HandleSubmit` | src/components/Game/GameCard.tsx:37-50 | submits if and only if both texts parse to non-negative integers, and then passes the game id and both values unchanged |
| `GameCard.UntouchedInputsResubmitBet` | src/components/Game/GameCard.tsx:28-50 | submitting the initial texts resubmits the existing bet; with no bet nothing can be submitted |
| `GameCard.NegativeGuessRefused` | src/components/Game/GameCard.tsx:41-47 | a guess with a negative side is refused |
| `GameCard.View` | src/components/Game/GameCard.tsx:70-140 | the badge reads 'Fechado' exactly when the card is closed; the submit button shows exactly when the inputs are enabled; the result shows exactly when there is one, and so does the current bet; a guess `handleSubmit` would accept never meets a disabled button |
| `GameCard.ClosedCardTakesNoBet` | src/components/Game/GameCard.tsx:70-140 | the badge reads 'Fechado' exactly when closed; a closed card has no submit button and disabled inputs; an open one has the button, disabled while an input is empty; the result shows exactly when there is one |
| `Text.ParseInt` | src/components/Game/GameCard.tsx:38-39 | empty text, or text starting with anything but white space, a sign or a digit, is `NaN` |
| `Text.ParseIntToString` | src/components/Game/GameCard.tsx:28-39 | `parseInt` of an integer's `toString` gives back that integer |
| `Scheduler.LockBets` | supabase/functions/game-scheduler/index.ts:42-48 | only the `locked` flag changes; a bet is locked afterwards exactly when it was already locked or its game is selected |
| `Scheduler.LockSelection` | supabase/functions/game-scheduler/index.ts:33-39 | an id is in the lock set exactly when some unfinished game with that id kicks off in [now+30min, now+40min) |
| `Scheduler.Tick` | supabase/functions/game-scheduler/index.ts:21-91 | which bets get locked; the three counters; reminders first, then results; one reminder per due game and nothing else; one results request per distinct recently finished round, with no duplicates |
| `Scheduler.TickLockIdempotent` | supabase/functions/game-scheduler/index.ts:43-47 | a second run at the same instant changes no bet |
| `Scheduler.NoCatchUp` | supabase/functions/game-scheduler/index.ts:37-38 | the bets of a game less than 30 minutes from kickoff, or already started, are left as they are |
| `Scheduler.LockWindowsTile` | supabase/functions/game-scheduler/index.ts:34-39 | runs exactly one window apart select each unfinished game in exactly one run |
| `Scheduler.ResultsLookbackOverlap` | supabase/functions/game-scheduler/index.ts:62-67 | a result recorded at one run is still recent one window later, so its round is notified twice |
| `LockRace.LockedGameTakesUnlockedBet` | src/hooks/useGames.ts:77-93 | as written: a run locks the bet and a resubmission at or before the cutoff is accepted; with a unique index the write is refused; without one the locked bet stays and an unlocked bet of the same user on the game is added with the new guesses, and every run on the ten-minute schedule after the locking run leaves it unlocked |
| `LockRace.UnlockedBetExample` | supabase/functions/game-scheduler/index.ts:33-48 | a concrete instance: kickoff at 100 min, a run and a 3x0 resubmission at 70 min beside the locked 2x1 bet, the next run at 80 min |
| `LockRace.CheckedSubmitRefusesLockedBet` | src/hooks/useGames.ts:72-94 | in the same scenario the checked submission is refused as already locked |
| `LockRace.StepKeepsLocks` | supabase/functions/game-scheduler/index.ts:41-48 | one run, or one checked submission, never unlocks a bet or changes a locked one |
| `LockRace.ReplayKeepsLocks` | supabase/functions/game-scheduler/index.ts:41-48 | if no single step unlocks or changes a locked bet, no sequence of steps does |
| `LockRace.LocksAreFinal` | supabase/functions/game-scheduler/index.ts:41-48 | with checked submissions, a locked bet keeps its lock and guesses through any sequence of runs and submissions |
| `LockRace.StepKeepsOneBetPerSlot` | src/hooks/useGames.ts:86-94 | a run, or a checked submission through the keyed upsert, keeps one bet per user and game |
| `LockRace.ReplayPreserves` | supabase/functions/game-scheduler/index.ts:41-48 | a table property every single step keeps holds after any sequence of steps |
| `LockRace.LockedBetStaysOnlyBet` | src/hooks/useGames.ts:72-94 | with checked submissions and the keyed upsert, a locked bet stays as it is and no other bet of the same user on the same game ever appears |
| `PushNotifications.LastSegment` | supabase/functions/send-push-notifications/index.ts:114 | the token is a suffix of the endpoint and has no '/'; when shorter than the endpoint it is preceded by '/' |
| `PushNotifications.TokenIsLastSegment` | supabase/functions/send-push-notifications/index.ts:114 | for an endpoint ending in "/" plus a token without '/', the token is exactly what is extracted |
| `PushNotifications.ReminderAudience` | supabase/functions/send-push-notifications/index.ts:44-58 | a user is in the reminder audience exactly when they hold no bet on the game; every member is a user; the audience lists users in the user query's order, each once when user ids are distinct |
| `PushNotifications.ResultsAudience` | supabase/functions/send-push-notifications/index.ts:66-79 | exactly the users holding a bet on some game of the round, each once |
| `PushNotifications.Resolve` | supabase/functions/send-push-notifications/index.ts:29-87 | a reminder whose game lookup does not find exactly one row fails with "Game not found"; otherwise the audience and the single payload per type; an unknown type has an empty audience and no payload |
| `PushNotifications.MatchedSubscriptions` | supabase/functions/send-push-notifications/index.ts:90-93 | exactly the subscriptions whose user is in the audience, in table order |
| `PushNotifications.Deliver` | supabase/functions/send-push-notifications/index.ts:102-134 | one message per subscription, all carrying the one payload; successes are the sends the push service fulfils, failures the rest, and they add up to the number of subscriptions |
| `PushNotifications.Handle` | supabase/functions/send-push-notifications/index.ts:89-156 | a failed resolution is a 400 error; no matching subscription gives "No subscriptions found"; otherwise the counts cover every matched subscription |
| `PushNotifications.MissingGameIsBadRequest` | supabase/functions/send-push-notifications/index.ts:34-42 | a reminder for a game not in the table is a 400 "Game not found" |
| `PushNotifications.OtherRequestReachesNobody` | supabase/functions/send-push-notifications/index.ts:29-100 | a request of any other type reaches nobody |
| `Ranking.SortByPoints` | src/components/Ranking/RankingTable.tsx:15-16 | the output is ordered by points, non-increasing, and is a permutation of the input |
| `Ranking.SortIsStable` | src/components/Ranking/RankingTable.tsx:15-16 | users with equal points keep their input order |
| `Ranking.Rank` | src/components/Ranking/RankingTable.tsx:15-20 | positions are 1..n in output order, the points are non-increasing, and the entries are the input's, fields unchanged |
| `Ranking.PositionBadge` | src/components/Ranking/RankingTable.tsx:22-27 | the default variant only for position 1, with 🥇; secondary exactly for 2 and 3, with 🥈 and 🥉; every other position has the outline variant and "#" followed by the number |
| `Ranking.BadgeIdentifiesPosition` | src/components/Ranking/RankingTable.tsx:22-27 | the icon alone gives back the position: 🥇, 🥈, 🥉, or "#" followed by the number |
| `Ranking.AdvertisedPoints` | src/components/Ranking/RankingTable.tsx:93-94 | 10 exactly for the exact score; 5 exactly for the right outcome with a wrong score; 0 exactly for the wrong outcome |
| `Ranking.ExactScoreIsBest` | src/components/Ranking/RankingTable.tsx:93-94 | no guess earns more than the exact score, and swapping the teams changes nothing |
| `Ranking.AdvertisedPointsExamples` | src/components/Ranking/RankingTable.tsx:93-94 | the rule on four concrete games |
| `Dashboard.OpenGames` | src/pages/Dashboard.tsx:51 | exactly the games neither flagged locked nor holding a result, in page order |
| `Dashboard.ClosedGames` | src/pages/Dashboard.tsx:52 | exactly the games flagged locked or holding a result, in page order |
| `Dashboard.OpenClosedPartition` | src/pages/Dashboard.tsx:51-52 | the closed list is the complement filter of the open one; every game is in exactly one list, and the two lengths add up to the page's |
| `Dashboard.OpenClosedKeepEveryGame` | src/pages/Dashboard.tsx:51-52 | together the two lists hold the page's games as a multiset: none lost, none doubled |
| `Dashboard.HandleBetSubmit` | src/pages/Dashboard.tsx:41-49 | the cards with the id get the guess as their bet; the others, the length and the order are unchanged |
| `Dashboard.UnknownGameUnchanged` | src/pages/Dashboard.tsx:43-47 | an unknown id leaves the list unchanged |
| `Dashboard.LastGuessWins` | src/pages/Dashboard.tsx:41-49 | a second submission for a game replaces the first |
| `Dashboard.BetSubmitKeepsSplit` | src/pages/Dashboard.tsx:41-52 | a submission moves no card between the open and closed lists |
| `Dashboard.BetsMade` | src/pages/Dashboard.tsx:127 | "Palpites Feitos" is at most the number of cards, and 0 exactly when no card holds a bet |
| `Dashboard.GamesAvailable` | src/pages/Dashboard.tsx:134 | "Jogos Disponíveis" and the closed list's length add up to the number of cards |
| `Dashboard.CountersAfterBetSubmit` | src/pages/Dashboard.tsx:127-134 | "Palpites Feitos" rises by the number of cards with that id that had no bet; "Jogos Disponíveis" is unchanged |
| `Admin.HandleCreateGame` | src/pages/Admin.tsx:46-71 | an empty field leaves the page unchanged; otherwise the game is appended unfinished and without a score, and the form is cleared |
| `Admin.HandleFinishGame` | src/pages/Admin.tsx:73-86 | the games with the id get both scores and are marked finished; the others are unchanged |
| `Admin.FinishOverwrites` | src/pages/Admin.tsx:73-80 | finishing again overwrites the first score, because there is no already-finished guard |
| `Admin.FinishCountsOnce` | src/pages/Admin.tsx:73-80 | the finished count grows by exactly the number of unfinished games with the id |
| `Admin.CreatedGameCanBeFinished` | src/pages/Admin.tsx:56-80 | a game created under a fresh id can be finished, and nothing before it changes |
| `Admin.AdminSubmit` | src/pages/Admin.tsx:213-222 | submits if and only if both texts parse, passing the values unchanged |
| `Admin.AnyScoreAccepted` | src/pages/Admin.tsx:213-221 | any integers, negative ones included, reach `onFinishGame` |
| `Admin.CardView` | src/pages/Admin.tsx:239-273 | a card shows either the score inputs or the result, never both, and the result exactly for a finished game; a score the submit rule would accept never meets a disabled button |
| `Admin.FinishedCardHidesInputs` | src/pages/Admin.tsx:239-273 | after a score is recorded the card shows the result and no inputs; other cards are unchanged |
| `Admin.EmptyInputNeverSubmits` | src/pages/Admin.tsx:266-270 | whenever the button is disabled, the submit rule would also refuse |
| `AuthForms.SubmitRegistration` | src/components/Auth/RegisterForm.tsx:21-53 | accepted exactly when all four fields are filled, the passwords match and it has at least 6 characters; then email, password and nickname pass unchanged; a missing field is reported exactly when one is empty |
| `AuthForms.RegistrationCheckOrder` | src/components/Auth/RegisterForm.tsx:24-49 | a mismatch is reported exactly when all fields are filled and the passwords differ; "too short" exactly when everything else passes |
| `AuthForms.PasswordLengthBoundary` | src/components/Auth/RegisterForm.tsx:42-49 | a six-character password passes; five characters are refused |
| `AuthForms.SubmitLogin` | src/components/Auth/LoginForm.tsx:19-33 | accepted exactly when both fields are filled, and then passed unchanged |
| `AuthForms.LoginIsLaxer` | src/components/Auth/LoginForm.tsx:22-33 | what registration accepts, login accepts; login also takes a one-character password that registration refuses |
| `PushKey.Padding` | src/lib/sw.ts:42 | the padding is below 4, it makes the length a multiple of 4, and it is 0 exactly for such lengths |
| `PushKey.Padded` | src/lib/sw.ts:42-43 | the padded key starts with the key, continues with '=' only, and has a length that is a multiple of 4 |
| `PushKey.ToStandard` | src/lib/sw.ts:43-45 | '-' becomes '+' and '_' becomes '/'; every other character and the length are unchanged |
| `PushKey.Atob` | src/lib/sw.ts:47 | after dropping the padding, decoding fails exactly on a length of the form 4k+1 or a character outside the alphabet; otherwise it decodes the 6-bit values |
| `PushKey.CopyCharCodes` | src/lib/sw.ts:48-52 | the array has the decoded length, and each element is that character's code, truncated to 8 bits |
| `PushKey.UrlBase64ToUint8Array` | src/lib/sw.ts:41-53 | fails exactly when `atob` fails; otherwise gives the character codes of the decoded text |
| `PushKey.SubscribeKey` | src/lib/sw.ts:22-31 | a missing or empty key is refused before decoding; otherwise the outcome of the key's decoding |
| `PushKey.DecodeEncodeValues` | src/lib/sw.ts:47 | decoding the 6-bit groups of any bytes gives the bytes back |
| `PushKey.KeyRoundTrip` | src/lib/sw.ts:41-53 | any bytes, written as unpadded base64url, come back unchanged from the client's conversion |
| `Lineup.HandleDragStart` | src/pages/MeuTime.tsx:54-56 | the dragged id is set and the squad is unchanged |
| `Lineup.HandleDrop` | src/pages/MeuTime.tsx:62-74 | with no dragged id, or an empty one, nothing changes; otherwise only the dragged player gets the target status, length and order are kept, and the drag ends |
| `Lineup.Titulares` | src/pages/MeuTime.tsx:50 | exactly the starters, in squad order |
| `Lineup.Reservas` | src/pages/MeuTime.tsx:51 | exactly the substitutes, in squad order |
| `Lineup.TotalPoints` | src/pages/MeuTime.tsx:52 | with no negative points the total is not negative and no smaller than any one player's points |
| `Lineup.StatusPartition` | src/pages/MeuTime.tsx:50-51 | starters and substitutes split the squad |
| `Lineup.DropKeepsTotal` | src/pages/MeuTime.tsx:52-74 | a drop never changes the team's total points |
| `Lineup.TotalSplits` | src/pages/MeuTime.tsx:50-52 | the total is the starters' points plus the substitutes' |
| `Lineup.DropOnStartersAddsStarter` | src/pages/MeuTime.tsx:62-74 | dropping a substitute on the starters always adds it, however many starters there are already (the "/5" is not enforced) |
| `Transfers.Decide` | src/pages/Transferencias.tsx:93-108 | the pending transfers with the id are removed and the rest are kept in their order; the recent list is untouched |
| `Transfers.ApproveSameAsReject` | src/pages/Transferencias.tsx:93-102 | approve and reject have the same effect on the page |
| `Transfers.UnknownIdUnchanged` | src/pages/Transferencias.tsx:94 | an id with no pending transfer leaves the page unchanged |
| `Transfers.DecideIdempotent` | src/pages/Transferencias.tsx:94 | deciding twice on an id is the same as deciding once |
| `Transfers.DecideRemovesExactly` | src/pages/Transferencias.tsx:93-94 | the list shrinks by exactly the number of pending transfers with the id |
| `Transfers.DecisionsCommute` | src/pages/Transferencias.tsx:93-108 | decisions on two transfers can be taken in either order |

## Left out

- Supabase queries, authentication, RPCs and the HTTP wrapping of the two
  functions (CORS, JSON bodies, status codes other than the 400 error) are
  not modelled. Tables and instants are inputs, and writes and invocations
  are outputs.
- The push service call is the parameter `delivered(i, message)`.
  `Promise.allSettled` becomes a sequential pass, one outcome per send.
  Overlapping scheduler runs and concurrent submissions are not modelled.
- The database scoring function `calculate_bet_points` and the
  `lock_bets_before_game` procedure are not in the repository. No bet
  scoring or `points_total` update is modelled.
- Date parsing and formatting (`new Date`, ISO strings, `Intl`,
  `toLocaleString`) are not modelled. Dates are integer milliseconds.
  An invalid date is modelled only as "game not found" in `submitBet`.
- The float average of "Meu Time" (`toFixed(1)`), toasts other than the
  form-refusal titles, and the pure UI and wiring files are not modelled.
- `Text.ParseInt`: reads decimal only. It skips leading white space, reads
  an optional sign, then the longest run of digits. The `0x` prefix and
  `Infinity` are not modelled, because number inputs never produce them.
- `Text.ParseIntToString`: guesses and scores are unbounded integers here.
  In JavaScript the round trip holds only for safe integers below 2^53, and
  `toString` switches to exponent form from 1e21. The same limit applies to
  `Admin.AnyScoreAccepted`, whose "any integers" means integers of that size.
- `Betting.InsertBetWrite`: the repository does not show whether the bets
  table has a unique index on (user, game). Both cases are modelled, chosen
  by the parameter `slotUnique`. Row-level security policies that might
  refuse the write are not modelled either.
- `Betting.UpsertBetWrite`: the write's `updated_at` and `points_awarded`
  are left unchanged on an existing bet.
- `Ranking.AdvertisedPoints`: the table only advertises 10 and 5. The 0 for
  a wrong outcome is an assumption, because the database's scoring body is
  not in the repository.
- `Ranking.SortByPoints`: `RankingTable.tsx:15-16` sorts the `users` prop in
  place, so the parent's array is reordered too. The model returns a new
  sequence and leaves its input as it was.
- `PushNotifications.MatchedSubscriptions`: the `.in('user_id', …)` query
  promises no row order. The model keeps the table's order.
- `PushKey.Atob`: the white-space stripping of forgiving base64 is not
  modelled. Keys are taken as typed.
- `AuthForms.SubmitRegistration`: a password's length is counted in
  Unicode characters. JavaScript counts UTF-16 code units, so a password
  with characters outside the Basic Multilingual Plane can differ.
- `Rows`: `role`, `email` and the other string columns are opaque
  strings. The `push_subscriptions` row keeps only `id`, `user_id` and
  `endpoint`.

## Findings

| source | as written | input that shows it | evidently intended | confidence | as-written member | corrected member |
|---|---|---|---|---|---|---|
| src/hooks/useGames.ts:86-94 | `submitBet` writes with `upsert` but names no conflict target and sends no `id`. The store resolves such an upsert on the primary key, which it generates, so every write inserts a new row. Without a unique (user, game) index a changed guess becomes a second bet beside the first; with one, a guess can never be changed. | a user's 2x1 bet on a game, resubmitted as 3x0 while the game is open | the user's existing bet on the game takes the new guesses, as `onConflict: 'user_id,game_id'` would make it | not executed; medium, because the bets table's indexes are not in the repository | `Betting.ResubmitAddsSecondBet` | `Betting.UpsertBetWrite` |
| src/hooks/useGames.ts:77-93 | `submitBet` checks only the 30-minute cutoff, then writes with `locked: false`. The scheduler locks bets 30 to 40 minutes before kickoff, so a user whose bet it has already locked can still write. Without a unique index the user then holds a second, unlocked bet on the game. The following runs of the ten-minute schedule never lock it, because the game has left their window. | kickoff at 100 min; a scheduler run at 70 min locks the 2x1 bet; a 3x0 resubmission at 70 min is accepted and added unlocked; the run at 80 min leaves it unlocked | a locked bet stays locked with its guesses unchanged and stays the user's only bet on the game; `LockRace.LockedBetStaysOnlyBet` proves this for the checked submission with the keyed upsert | not executed; medium, because the table's indexes and row policies are not in the repository | `LockRace.LockedGameTakesUnlockedBet` | `Betting.SubmitBetChecked` |

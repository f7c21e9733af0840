# Trivia duel: matches, rounds and answer sessions

This project models the server side of a two-player trivia game.

**Matches.** A player joins a match. They either fill the empty second seat of a match that is WAITING, or they open a new WAITING match. A match is IN_ROUND while it is played and COMPLETED after the last round. These are the only three statuses, since `Models.Status` has exactly these three constructors.

**Rounds.** Each round has a chooser, fixed by the parity of the round number: player1 on odd rounds, player2 on even ones. The chooser picks a topic from an offer of categories that this match has not used yet. Picking a topic creates the `Round` row and one `RoundSession` row per player.

**Quiz phases.** The chooser plays the "self" phase, then the opponent plays theirs:
- On a player's first visit, their session is seeded with answer logs for a random draw of the topic's approved questions.
- Each answer fills the first unanswered log and adds one to the score when the choice is correct.
- The session is stamped complete once its last expected question is answered.
- When the opponent phase finishes, the match moves to the next round. The match becomes COMPLETED when that next round is past the round budget.

**Summaries.** A round summary and a match summary report the scores.

**How the code is laid out.**
- **Models** (game/models.py) holds the record types and the defaults of freshly created rows.
- **Database** holds:
  - the whole store as one value, `Db`, with one sequence per table; a row's primary key is its index, and rows are only ever appended;
  - the three constants QUESTIONS_PER_ROUND, TOTAL_ROUNDS and CHOICE_COUNT, as `Config`;
  - the invariants the handlers keep, as `Valid`. They cover: at most one WAITING or IN_ROUND match per player; at most one WAITING match; one round per (match, round number); one session per (round, user); a score equal to the number of correct logs; and a completed session that has all its logs answered.
- **Queries** holds the ORM lookups. `.first()` is the lowest matching primary key. A filter lists the matching keys in increasing key order. That order is the model's choice: the source gives those querysets no `order_by` (see "## Left out").
- **Views** gives one function per handler. Each returns the new store and an `Outcome`, which names the redirect or page that the handler produces.
- **Matchmaking**, **RoundStart**, **Quiz** and **Summaries** prove what those functions promise.
- **Store** holds the class `GameStore`. It has one field per table, and its methods carry out the handlers step by step: fields are reassigned, rows are appended in loops, and the totals are summed in a loop. Each method is proved to end in exactly the state and response that the matching `Views` function gives. The request-level methods `JoinMatch`, `StartRound` and `PlayRound` are also proved to keep `Valid`.

**Inputs outside the store.** Randomness is an argument that the caller supplies:
- `SampleFits` constrains the topic offer's `random.sample`;
- `DrawFits` constrains the `order_by('?')` question draw.

Each must be a duplicate-free draw of the right size from the right pool. Timestamps are opaque `Tick` values.

**Code as written.** The model follows the code as written. In particular, a topic POST that the player1 of a still-WAITING match sends creates the round and player1's session before creating player2's session fails (`player2` is unset). That request ends as a server error (`ServerError`) after those partial writes, so it does not create "one session per player". Once a second player joins, start_round finds the existing round and sends them to it as the opponent, but play_round answers 404 because they have no session in it. That round, and so the match, can never finish.

## Model

| member | source | states |
|---|---|---|
| Queries.FindFirst | game/views.py:46 | `.first()`: the lowest index whose row satisfies the filter, or none when no row does |
| Queries.IdsWhere | game/views.py:157 | a filtered queryset: exactly the indices whose rows satisfy the filter, in increasing key order |
| Queries.UnusedIds | game/views.py:104-106 | the category ids below the table size that are not used, each once, in increasing order |
| Queries.SeedLogs | game/views.py:154-155 | one fresh log per drawn question, in draw order, all for the given session |
| Matchmaking.PairKeepsMatchesValid | game/views.py:46-52 | seating the joiner in a WAITING match owned by someone else keeps the one-active-match-per-player and single-waiting-match invariants |
| Matchmaking.QueueKeepsMatchesValid | game/models.py:38-42 | a new match with the model defaults (WAITING, round 1, no player2) keeps the match invariants when the joiner is idle and nobody is waiting |
| Matchmaking.JoinPreservesValid | game/views.py:36-56 | join_match keeps every store invariant, including at most one WAITING/IN_ROUND match per player |
| Matchmaking.JoinCases | game/views.py:39-56 | only the matches table changes; an active player changes nothing; otherwise the joiner takes player2 of a WAITING match of another player and it becomes IN_ROUND on round 1, nothing else changed; failing that (no WAITING match at all) a new WAITING match with the joiner as player1 and no player2 is appended |
| Matchmaking.JoinThenStatus | game/views.py:59-73 | after a join, match_status sends the joiner to the round start of the paired match, or shows the waiting page of the match just opened |
| Matchmaking.JoinIdempotent | game/views.py:39-43 | joining a second time changes nothing and redirects to match_status |
| Matchmaking.TwoPlayersPair | game/views.py:36-56 | from an empty table, two distinct players joining in turn end in one IN_ROUND match of the two, with the first as chooser of round 1 |
| RoundStart.FreshSessionHasNoLogs | game/models.py:60-68 | a session with a fresh key owns no logs, so its score of 0 is the number of its correct logs |
| RoundStart.CreateKeepsRoundsValid | game/models.py:47-55 | a round created for the current round number, within the budget, by the parity chooser, with none existing yet keeps (match, round_number) unique |
| RoundStart.AddSessionKeepsValid | game/models.py:60-68 | appending a session with score 0, no completion and a new (round, user) pair keeps the session invariants |
| RoundStart.CreateKeepsSessionsValid | game/views.py:118-125 | the sessions created with a new round keep session and log invariants |
| RoundStart.StartRoundPreservesValid | game/views.py:76-132 | start_round keeps every store invariant |
| RoundStart.StartRoundCreatesOnlyWhen | game/views.py:81-127 | the store changes exactly when a POST names an existing slug, the counter is within TOTAL_ROUNDS, no round exists for it and the requester is the parity chooser; the new round has the current number, the requester as chooser and the posted category; both players get a fresh session and the response goes to the chooser's phase, or, in a WAITING match, only player1's session is written and the response is a server error |
| RoundStart.RoundOfAppended | game/views.py:88-91 | once created, the round is what the lookup of (match, current_round) finds |
| RoundStart.StartRoundIdempotent | game/views.py:87-94 | after a successful topic POST, any later request to start_round changes nothing and sends each player to their own phase of that round |
| RoundStart.StartRoundOffer | game/views.py:103-111 | the offer holds only categories unused by this match, without duplicates, of size min(available, CHOICE_COUNT), and all of them when few are left |
| Quiz.TurnOrder | game/views.py:139-146 | the "self" phase belongs to the chooser; any other phase string belongs to the other player, who exists exactly when player2 is set |
| Quiz.PlayRoundOutOfTurn | game/views.py:140-146 | a requester whose turn it is not goes to the waiting page and nothing is written |
| Quiz.FirstUnansweredByKey | game/views.py:157-163 | the next log is the requester's unanswered log of smallest key; there is none exactly when all are answered |
| Quiz.DrawnQuestions | game/views.py:153 | every drawn question exists, is approved and belongs to the round's category |
| Quiz.SeedKeepsSessionValid | game/views.py:152-155 | seeding an empty session with at most QUESTIONS_PER_ROUND unanswered logs keeps each session's invariant and adds logs only to that session |
| Quiz.SeedKeepsLogsValid | game/models.py:73-77 | seeded logs, unanswered and not correct by default, refer to an existing session and question |
| Quiz.SeedKeepsSessionsValid | game/views.py:152-155 | seeding keeps the session invariants and leaves other sessions' log counts alone |
| Quiz.SeedKeepsValid | game/views.py:152-155 | the lazy seeding step keeps every store invariant |
| Quiz.AnswerKeepsOwnSessionValid | game/views.py:167-183 | after answering, the score still equals the number of correct logs, and a stamped session has every log answered |
| Quiz.LastAnswerCompletes | game/views.py:178-183 | answering the last of the session's logs leaves all of them answered |
| Quiz.AnswerKeepsLogCounts | game/views.py:168-171 | answering adds and removes no logs of any session |
| Quiz.AnswerKeepsLogsValid | game/views.py:168-171 | the answered log's correctness is the chosen choice's flag |
| Quiz.AnswerKeepsSessionsValid | game/views.py:167-183 | answering the first unanswered log keeps every session's invariant |
| Quiz.AdvanceKeepsValid | game/views.py:189-194 | any change of the matches that advances at most the round's match by one round (`Advanced`), and that only when the requester holds the opponent phase, keeps the match and round invariants |
| Quiz.AnswerKeepsValid | game/views.py:167-195 | the POST answer step keeps every store invariant |
| Quiz.AnswerMatches | game/views.py:185-194 | an answer advances the round's match by one round (`Advanced`: counter up by one, COMPLETED exactly past TOTAL_ROUNDS, players kept) exactly when it closes a phase other than "self"; every other match stays |
| Quiz.PlayRoundPreservesValid | game/views.py:135-203 | play_round keeps every store invariant |
| Quiz.AnswerFrame | game/views.py:167-195 | answering rewrites only the answered log, the requester's session and the match |
| Quiz.PlayRoundFrame | game/views.py:135-203 | play_round touches only the requester's session, its logs and possibly the round's match (see `Quiz.PlayRoundAdvances`); it appends no rows but logs, and writes nothing unless it is the requester's turn and they have a session |
| Quiz.SeededFrame | game/views.py:152-155 | seeding only appends logs for the given session |
| Quiz.SeedLogsFit | game/views.py:153-155 | the seed has min(pool, QUESTIONS_PER_ROUND) unanswered logs for distinct approved questions of the round's category |
| Quiz.SeedOnce | game/views.py:152 | seeding keeps earlier logs, does nothing to a session that has logs, and a second visit never reseeds |
| Quiz.SeedCount | game/views.py:154-155 | after seeding an empty session, it owns exactly the seeded logs |
| Quiz.SeedContents | game/views.py:152-155 | the logs appended by the first visit are exactly the session's logs: min(pool, QUESTIONS_PER_ROUND) of them, unanswered, for distinct approved questions of the category |
| Quiz.PlayRoundAnswers | game/views.py:157-175 | with every log answered the visit only seeds and goes to round_complete; otherwise exactly the first unanswered log gets the choice and its correctness, and the score grows by one exactly when the choice is correct |
| Quiz.CompletedSessionIsDone | game/views.py:157-163 | a stamped session is not reseeded and has no unanswered log |
| Quiz.AnswerAdvances | game/views.py:178-195 | a phase completes exactly when the answered position reaches QUESTIONS_PER_ROUND; finishing "self" hands over to the opponent and leaves the match; finishing the opponent phase raises the counter by one and completes the match exactly past TOTAL_ROUNDS |
| Quiz.PlayRoundAdvances | game/views.py:167-195 | the same for a whole play_round request: the match changes exactly when the opponent phase completes, and then as above |
| Quiz.PlayRoundShowsQuestion | game/views.py:197-203 | a GET only seeds; a shown question is the requester's first unanswered one, with all its choices, its 1-based position and QUESTIONS_PER_ROUND as total |
| Quiz.ShownQuestion | game/views.py:197-202 | the question rendered for the first unanswered log is that log's question, with exactly its choices, at a position within QUESTIONS_PER_ROUND |
| Quiz.PlayRoundCompletesWhenAllAnswered | game/views.py:178-183 | a session that becomes stamped in a request has exactly QUESTIONS_PER_ROUND logs, all answered |
| Quiz.ShortSeed | game/views.py:153-155 | a pool smaller than QUESTIONS_PER_ROUND seeds fewer logs than that |
| Quiz.ShortAnswerStalls | game/views.py:178-183 | with such a short session, answering never stamps a session and never moves the match |
| Quiz.ShortPlayStalls | game/views.py:178-195 | the same for a whole play_round request in a short round |
| Quiz.ShortPoolNeverCompletes | game/views.py:178-195 | when the round's pool is smaller than QUESTIONS_PER_ROUND, no request completes a session of that round or moves its match, so the round never ends |
| Summaries.SessionLookup | game/views.py:218-219 | the session lookup finds the session of (round, user), or none exists |
| Summaries.ScoreBounds | game/views.py:173-175 | a score lies between 0 and the number of the session's logs, at most QUESTIONS_PER_ROUND, and equals that number exactly when all of its logs are correct |
| Summaries.RoundCompleteScores | game/views.py:215-224 | round_complete is the summary exactly when the round and both players' sessions exist, with each score the number of that player's correct logs; otherwise not found |
| Summaries.RoundRowSpec | game/views.py:234-236 | a round's row exists exactly when both players have a session in it, and holds the round number and both scores |
| Summaries.SummaryRowsLength | game/views.py:233-236 | one row per round |
| Summaries.SummaryRowsAt | game/views.py:233-236 | row k is the row of the k-th round |
| Summaries.SummaryRowsMissing | game/views.py:233-236 | when building the rows fails, some round lacks a player's session |
| Summaries.SummaryRowsDefined | game/views.py:233-236 | the rows exist exactly when every round has both players' sessions |
| Summaries.SummaryRowsContent | game/views.py:233-236 | every row is the row of its round |
| Summaries.TotalsBounded | game/views.py:237-238 | each total lies between 0 and the number of rows times the per-round maximum |
| Summaries.RoundIdsOrdered | game/views.py:233 | a match's rounds in key order are in increasing round-number order |
| Summaries.MatchCompleteOutcome | game/views.py:227-245 | match_complete is not found exactly when the match is missing, a server error exactly when some round lacks a player's session, and the summary otherwise |
| Summaries.RowScoresBounded | game/views.py:236 | every row's scores lie within 0 and QUESTIONS_PER_ROUND |
| Summaries.RowsOrdered | game/views.py:233 | the rows follow increasing round number |
| Summaries.MatchCompleteRows | game/views.py:233-236 | the summary has one row per round of the match, each that round's number and scores, in increasing round order |
| Summaries.MatchCompleteTotals | game/views.py:231-238 | each total is the sum of its column, every score is within QUESTIONS_PER_ROUND, and each total within rows times QUESTIONS_PER_ROUND |
| Store.GameStore.constructor | game/models.py:7-29 | a store with a consistent question bank and empty game tables satisfies the invariants |
| Store.GameStore.JoinMatch | game/views.py:36-56 | the new state and response are those of `Views.Join`; the invariants hold |
| Store.GameStore.StartRound | game/views.py:76-132 | the new state and response are those of `Views.StartRound`; the invariants hold |
| Store.GameStore.CreateRound | game/views.py:117-127 | appends the round and, in a loop, one session per player, ending as `Views.CreateRound` |
| Store.GameStore.SeedSession | game/views.py:151-155 | appends the drawn logs in a loop; the logs end as `Views.Seeded`, other tables unchanged |
| Store.GameStore.RecordAnswer | game/views.py:167-195 | updates the log, the session and possibly the match in place, ending as `Views.Answer` |
| Store.GameStore.PlayRound | game/views.py:135-203 | the new state and response are those of `Views.PlayRound`; the invariants hold |
| Store.GameStore.HandlePlayRound | game/views.py:135-203 | the play_round steps on the fields, ending as `Views.PlayRound` |
| Store.GameStore.SummaryRow | game/views.py:234-236 | reads one round's row: both sessions' scores, or none when one is missing |
| Store.GameStore.MatchComplete | game/views.py:227-245 | sums the rows in a loop without writing, and returns what `Views.MatchComplete` gives |

## Left out

- `signup` and `HomeView` (game/views.py:20-33): account creation and the home page. They are outside the game state machine. The user table is not modelled: user ids are plain numbers.
- `waiting_phase` (game/views.py:206-212) only renders a page. It appears only as the `ToWaitingPhase` outcome.
- Templates and HTTP redirects become `Outcome` values. TIME_LIMIT_SECONDS is only displayed, never enforced, so it is not modelled.
- Timestamps (`timezone.now()`, `auto_now_add`) become opaque `Tick` arguments, because only whether they are set matters to the logic.
- `random.sample` and `order_by('?')` become arguments, constrained by `SampleFits` and `DrawFits`, because the model has no randomness.
- Concurrency is not modelled: each request is one atomic step. The code takes no locks, so simultaneous joins could in reality break one-active-match-per-player.
- The ORM machinery, cascade deletes (the core deletes nothing) and the `__str__` methods of game/models.py are not modelled.
- game/urls.py, game/admin.py and game/management/commands/seed_questions.py are not part of this model.
- game/constants.py is not part of this model. Its three constants used by the logic are the fields of `Config`.
- A non-numeric `choice` value (a `ValueError` in the source) is not modelled: the form field is a number or missing. A missing field is modelled as a server error.
- The question bank (categories, questions, choices) is only read by the core. Its consistency (unique names and slugs, choices and questions pointing at existing parents) is assumed as `ContentValid`. `Models.NewQuestion` and `Models.NewChoice` only record the defaults of game/models.py:17 and 26; no handler creates such rows.
- `Queries.SessionLogIds`, `Queries.ChoicesOf` and `Views.AvailableFor` list rows in primary-key order. The querysets they model (`session.answers.all()` at game/views.py:157, `log.question.choices.all()` at game/views.py:199, `list(available)` at game/views.py:109) have no `order_by`, and AnswerLog, Choice and Category declare no default ordering, so the database may return them in any order. The model fixes that unspecified order to key order. That order decides which log is answered next and the position `idx` that the completion test at game/views.py:178 reads. It also decides the order in which choices are shown and from which the topic offer is drawn.
- `order_by('round_number')` in match_complete is modelled as primary-key order. `Summaries.RoundIdsOrdered` and `Summaries.MatchCompleteRows` show that the two orders agree.
- The code does these things as written, and the model keeps them:
  - a topic POST accepts any existing slug, including one outside the offer;
  - an answer accepts any existing choice id, including one of another question;
  - the turn check looks only at identity, so the opponent may play before the chooser finishes;
  - every phase string other than "self" counts as the opponent phase;
  - a round whose category has fewer approved questions than QUESTIONS_PER_ROUND never completes, as `Quiz.ShortPoolNeverCompletes` states.

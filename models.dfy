/** The records of the trivia game's database (game/models.py).

    Every table is an append-only sequence of records: a record's primary key
    is its index, keys are handed out in creation order, and the core never
    deletes a row.  Foreign keys are plain indices into the referenced table.
 */
module Models {

  datatype Option<+T> = None | Some(value: T)

  /** Primary key of a user account; accounts are not part of this model. */
  type UserId = nat

  /** An opaque timestamp standing for the value of `timezone.now()`. */
  type Tick = int

  datatype Category = Category(name: string, slug: string)

  datatype Question = Question(categoryId: nat, text: string, approved: bool)

  datatype Choice = Choice(questionId: nat, text: string, isCorrect: bool)

  /** The three values of `GameMatch.STATUS_CHOICES`; the status field holds no other. */
  datatype Status = Waiting | InRound | Completed

  datatype GameMatch = GameMatch(
    player1: UserId,
    player2: Option<UserId>,
    startedAt: Option<Tick>,
    status: Status,
    currentRound: int)

  datatype Round = Round(matchId: nat, roundNumber: int, chooser: UserId, categoryId: nat)

  datatype RoundSession = RoundSession(roundId: nat, user: UserId, completedAt: Option<Tick>, score: int)

  datatype AnswerLog = AnswerLog(sessionId: nat, questionId: nat, selectedChoice: Option<nat>, isCorrect: bool)

  // Rows as `objects.create` builds them: the given fields plus the model's defaults.

  function NewQuestion(categoryId: nat, text: string): Question
  {
    Question(categoryId, text, true)
  }

  function NewChoice(questionId: nat, text: string): Choice
  {
    Choice(questionId, text, false)
  }

  function NewMatch(player1: UserId): GameMatch
  {
    GameMatch(player1, None, None, Waiting, 1)
  }

  function NewSession(roundId: nat, user: UserId): RoundSession
  {
    RoundSession(roundId, user, None, 0)
  }

  function NewAnswerLog(sessionId: nat, questionId: nat): AnswerLog
  {
    AnswerLog(sessionId, questionId, None, false)
  }
}

/** The whole database as one value, the game's tunable constants, and the
    invariants that every view keeps.
 */
module Database {
  import opened Models
  import opened Queries

  /** The constants of game/constants.py that the core reads.  (The per-question
      time limit is only displayed, never enforced, so it is not here.) */
  datatype Config = Config(questionsPerRound: nat, totalRounds: nat, choiceCount: nat)

  /** One snapshot of every table the core touches.  The first three are the
      question bank, which the core only reads. */
  datatype Db = Db(
    categories: seq<Category>,
    questions: seq<Question>,
    choices: seq<Choice>,
    matches: seq<GameMatch>,
    rounds: seq<Round>,
    sessions: seq<RoundSession>,
    logs: seq<AnswerLog>)

  /** The question bank: unique category names and slugs, and every question
      and choice points at an existing parent row. */
  ghost predicate ContentValid(cats: seq<Category>, qs: seq<Question>, cs: seq<Choice>)
  {
    && (forall i, j :: 0 <= i < j < |cats| ==> cats[i].name != cats[j].name && cats[i].slug != cats[j].slug)
    && (forall q :: 0 <= q < |qs| ==> qs[q].categoryId < |cats|)
    && (forall c :: 0 <= c < |cs| ==> cs[c].questionId < |qs|)
  }

  /** A match's round counter starts at 1 and never drops; its two players
      differ; it is WAITING exactly while player2 is unset, and a WAITING match
      is still on round 1. */
  predicate MatchValid(m: GameMatch)
  {
    && m.currentRound >= 1
    && m.player2 != Some(m.player1)
    && (m.status == Waiting <==> m.player2.None?)
    && (m.status == Waiting ==> m.currentRound == 1)
  }

  /** No player belongs to two WAITING/IN_ROUND matches. */
  ghost predicate OneActivePerPlayer(ms: seq<GameMatch>)
  {
    forall i, j :: 0 <= i < |ms| && 0 <= j < |ms| && i != j && Active(ms[i]) && Active(ms[j])
      ==> Players(ms[i]) !! Players(ms[j])
  }

  /** The waiting queue never holds more than one match. */
  ghost predicate AtMostOneWaiting(ms: seq<GameMatch>)
  {
    forall i, j :: 0 <= i < j < |ms| ==> ms[i].status != Waiting || ms[j].status != Waiting
  }

  ghost predicate MatchesValid(ms: seq<GameMatch>)
  {
    && (forall i :: 0 <= i < |ms| ==> MatchValid(ms[i]))
    && OneActivePerPlayer(ms)
    && AtMostOneWaiting(ms)
  }

  /** A round belongs to an existing match and category, its number lies
      between 1 and both the match's counter and the round budget, and its
      chooser is the parity chooser of that number. */
  predicate RoundValid(cfg: Config, r: Round, ms: seq<GameMatch>, nCategories: nat)
  {
    && r.matchId < |ms|
    && r.categoryId < nCategories
    && 1 <= r.roundNumber <= ms[r.matchId].currentRound
    && r.roundNumber <= cfg.totalRounds
    && ParityChooser(ms[r.matchId], r.roundNumber) == Some(r.chooser)
  }

  /** Rounds are valid, and within one match their numbers grow with their
      primary keys, so (match, round_number) is unique. */
  ghost predicate RoundsValid(cfg: Config, rs: seq<Round>, ms: seq<GameMatch>, nCategories: nat)
  {
    && (forall i :: 0 <= i < |rs| ==> RoundValid(cfg, rs[i], ms, nCategories))
    && (forall i, j :: 0 <= i < j < |rs| && rs[i].matchId == rs[j].matchId ==> rs[i].roundNumber < rs[j].roundNumber)
  }

  /** A session belongs to an existing round; its score is the number of its
      correct answer logs; it has at most questionsPerRound logs; and once it is
      stamped complete, it has exactly questionsPerRound (at least one) logs,
      all answered. */
  ghost predicate SessionValid(cfg: Config, s: RoundSession, sid: nat, nRounds: nat, logs: seq<AnswerLog>)
  {
    && s.roundId < nRounds
    && s.score == CountCorrect(logs, sid)
    && |SessionLogIds(logs, sid)| <= cfg.questionsPerRound
    && (s.completedAt.Some? ==>
          AllAnswered(logs, sid) && 0 < |SessionLogIds(logs, sid)| == cfg.questionsPerRound)
  }

  /** Sessions are valid and unique per (round, user). */
  ghost predicate SessionsValid(cfg: Config, ss: seq<RoundSession>, nRounds: nat, logs: seq<AnswerLog>)
  {
    && (forall i :: 0 <= i < |ss| ==> SessionValid(cfg, ss[i], i, nRounds, logs))
    && (forall i, j :: 0 <= i < j < |ss| ==> ss[i].roundId != ss[j].roundId || ss[i].user != ss[j].user)
  }

  /** A log belongs to an existing session and question; unanswered it is not
      correct, answered its flag is the chosen choice's flag. */
  predicate LogValid(l: AnswerLog, nSessions: nat, nQuestions: nat, cs: seq<Choice>)
  {
    && l.sessionId < nSessions
    && l.questionId < nQuestions
    && match l.selectedChoice
       case None => !l.isCorrect
       case Some(c) => c < |cs| && l.isCorrect == cs[c].isCorrect
  }

  ghost predicate LogsValid(logs: seq<AnswerLog>, nSessions: nat, qs: seq<Question>, cs: seq<Choice>)
  {
    forall i :: 0 <= i < |logs| ==> LogValid(logs[i], nSessions, |qs|, cs)
  }

  ghost predicate Valid(cfg: Config, db: Db)
  {
    && ContentValid(db.categories, db.questions, db.choices)
    && MatchesValid(db.matches)
    && RoundsValid(cfg, db.rounds, db.matches, |db.categories|)
    && SessionsValid(cfg, db.sessions, |db.rounds|, db.logs)
    && LogsValid(db.logs, |db.sessions|, db.questions, db.choices)
  }

  /** Every round points at an existing match: the part of Valid the views
      need just to look rows up. */
  predicate RoundRefs(db: Db)
  {
    forall i :: 0 <= i < |db.rounds| ==> db.rounds[i].matchId < |db.matches|
  }

  lemma ValidRoundRefs(cfg: Config, db: Db)
    requires Valid(cfg, db)
    ensures RoundRefs(db)
  {
    forall i | 0 <= i < |db.rounds| ensures db.rounds[i].matchId < |db.matches| {
      assert RoundValid(cfg, db.rounds[i], db.matches, |db.categories|);
    }
  }

  /** Rounds stay valid when matches are only appended, keep their player1
      and round counter or raise it, and change player2 only from unset. */
  lemma RoundsValidAfterMatchUpdate(cfg: Config, rs: seq<Round>, ms: seq<GameMatch>, ms': seq<GameMatch>, nCategories: nat)
    requires RoundsValid(cfg, rs, ms, nCategories)
    requires |ms| <= |ms'|
    requires forall i :: 0 <= i < |ms| ==>
      && ms'[i].player1 == ms[i].player1
      && ms'[i].currentRound >= ms[i].currentRound
      && (ms[i].player2.Some? ==> ms'[i].player2 == ms[i].player2)
    ensures RoundsValid(cfg, rs, ms', nCategories)
  {
    forall i | 0 <= i < |rs| ensures RoundValid(cfg, rs[i], ms', nCategories) {
      var r := rs[i];
      assert RoundValid(cfg, r, ms, nCategories);
      if r.roundNumber % 2 != 1 {
        assert ms[r.matchId].player2 == Some(r.chooser);
      }
    }
  }
}

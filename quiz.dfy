/** Properties of play_round (game/views.py:135-203): whose turn it is, the
    one-time seeding of a session's answer logs, answering, completing a
    phase, and advancing the match's round counter.
 */
module Quiz {
  import opened Models
  import opened Queries
  import opened Database
  import opened Views

  // ---- Turn order ----

  /** The round's chooser is a player of the match.  Phase 'self' is the
      chooser's; any other phase string is the other player's, who is never
      the chooser and is missing exactly while player2 is unset; together
      they are the match's players. */
  lemma TurnOrder(cfg: Config, db: Db, rid: nat, phase: string)
    requires Valid(cfg, db) && rid < |db.rounds|
    ensures var r := db.rounds[rid];
      var m := db.matches[r.matchId];
      var t := Turn(m, r, phase);
      && r.chooser in Players(m)
      && (phase == "self" ==> t == Some(r.chooser))
      && (phase != "self" ==>
            && t != Some(r.chooser)
            && (t.Some? <==> m.player2.Some?)
            && (t.Some? ==> Players(m) == {r.chooser, t.value}))
  {
    var r := db.rounds[rid];
    assert RoundValid(cfg, r, db.matches, |db.categories|);
    assert MatchValid(db.matches[r.matchId]);
  }

  /** A requester whose turn it is not (in the "self" phase anyone but the
      chooser, in the other phase the chooser or an outsider) is sent to the
      waiting page and nothing is written. */
  lemma PlayRoundOutOfTurn(cfg: Config, db: Db, rid: nat, u: UserId, phase: string, draw: seq<nat>,
                           form: Form<nat>, now: Tick)
    requires Valid(cfg, db) && rid < |db.rounds|
    requires var r := db.rounds[rid];
      if phase == "self" then u != r.chooser else u == r.chooser || u !in Players(db.matches[r.matchId])
    ensures RoundRefs(db)
    ensures PlayRound(cfg, db, rid, u, phase, draw, form, now) == (db, ToWaitingPhase(rid, phase))
  {
    ValidRoundRefs(cfg, db);
    TurnOrder(cfg, db, rid, phase);
  }

  // ---- Which log comes next ----

  /** The next log to answer is the requester's unanswered log with the
      smallest primary key; there is none exactly when every log of the
      session is answered. */
  lemma FirstUnansweredByKey(logs: seq<AnswerLog>, sid: nat)
    ensures var ids := SessionLogIds(logs, sid);
      match FirstUnanswered(logs, ids)
      case None => AllAnswered(logs, sid)
      case Some(k) =>
        && k < |ids| && ids[k] < |logs|
        && logs[ids[k]].sessionId == sid && logs[ids[k]].selectedChoice.None?
        && forall j :: 0 <= j < ids[k] && logs[j].sessionId == sid ==> logs[j].selectedChoice.Some?
  {
    var ids := SessionLogIds(logs, sid);
    match FirstUnanswered(logs, ids)
    case None =>
      forall j | 0 <= j < |logs| && logs[j].sessionId == sid ensures logs[j].selectedChoice.Some? {
        assert InSession(sid)(logs[j]);
        var k :| 0 <= k < |ids| && ids[k] == j;
      }
    case Some(k) =>
      forall j | 0 <= j < ids[k] && logs[j].sessionId == sid ensures logs[j].selectedChoice.Some? {
        assert InSession(sid)(logs[j]);
        var k' :| 0 <= k' < |ids| && ids[k'] == j;
        assert k' < k;
      }
  }

  // ---- Seeding ----

  /** Every drawn question is an approved question of the round's category. */
  lemma DrawnQuestions(cfg: Config, db: Db, rid: nat, draw: seq<nat>)
    requires rid < |db.rounds| && DrawFits(cfg, db, rid, draw)
    ensures forall k :: 0 <= k < |draw| ==>
      && draw[k] < |db.questions|
      && db.questions[draw[k]].categoryId == db.rounds[rid].categoryId
      && db.questions[draw[k]].approved
  {
    var pool := ApprovedPool(db.questions, db.rounds[rid].categoryId);
    forall k | 0 <= k < |draw|
      ensures draw[k] < |db.questions|
      ensures db.questions[draw[k]].categoryId == db.rounds[rid].categoryId && db.questions[draw[k]].approved
    {
      assert draw[k] in pool;
      var j :| 0 <= j < |pool| && pool[j] == draw[k];
    }
  }

  /** Appending unanswered, incorrect logs of session `sid` keeps every
      session valid, provided `sid` had no logs and gets no more than
      QUESTIONS_PER_ROUND; only `sid`'s number of logs grows. */
  lemma SeedKeepsSessionValid(cfg: Config, s: RoundSession, i: nat, n: nat, logs: seq<AnswerLog>,
                              seed: seq<AnswerLog>, sid: nat)
    requires SessionValid(cfg, s, i, n, logs)
    requires forall k :: 0 <= k < |seed| ==> seed[k].sessionId == sid && !seed[k].isCorrect
    requires i == sid ==> SessionLogIds(logs, sid) == [] && |seed| <= cfg.questionsPerRound
    ensures SessionValid(cfg, s, i, n, logs + seed)
    ensures |SessionLogIds(logs + seed, i)| == |SessionLogIds(logs, i)| + (if i == sid then |seed| else 0)
  {
    var logs' := logs + seed;
    IdsWhereConcat(logs, seed, InSession(i));
    IdsWhereCount(seed, InSession(i));
    IdsWhereConcat(logs, seed, CorrectInSession(i));
    IdsWhereCount(seed, CorrectInSession(i));
  }

  /** The seeded logs are valid: each new log names an existing session and
      question and is unanswered. */
  lemma SeedKeepsLogsValid(cfg: Config, db: Db, rid: nat, sid: nat, draw: seq<nat>)
    requires Valid(cfg, db) && rid < |db.rounds| && sid < |db.sessions|
    requires DrawFits(cfg, db, rid, draw)
    ensures LogsValid(db.logs + SeedLogs(sid, draw), |db.sessions|, db.questions, db.choices)
  {
    var logs, seed := db.logs, SeedLogs(sid, draw);
    var logs' := logs + seed;
    DrawnQuestions(cfg, db, rid, draw);
    forall i | 0 <= i < |logs'| ensures LogValid(logs'[i], |db.sessions|, |db.questions|, db.choices) {
      if i < |logs| {
        assert LogValid(logs[i], |db.sessions|, |db.questions|, db.choices);
      } else {
        assert logs'[i] == seed[i - |logs|];
      }
    }
  }

  /** Seeding a session without logs keeps the sessions valid and leaves
      every other session's number of logs as it was. */
  lemma SeedKeepsSessionsValid(cfg: Config, db: Db, rid: nat, sid: nat, draw: seq<nat>)
    requires Valid(cfg, db) && rid < |db.rounds| && sid < |db.sessions|
    requires DrawFits(cfg, db, rid, draw) && SessionLogIds(db.logs, sid) == []
    ensures SessionsValid(cfg, db.sessions, |db.rounds|, db.logs + SeedLogs(sid, draw))
    ensures forall i :: 0 <= i < |db.sessions| && i != sid ==>
      |SessionLogIds(db.logs + SeedLogs(sid, draw), i)| == |SessionLogIds(db.logs, i)|
  {
    var logs, seed := db.logs, SeedLogs(sid, draw);
    forall i | 0 <= i < |db.sessions|
      ensures SessionValid(cfg, db.sessions[i], i, |db.rounds|, logs + seed)
      ensures i != sid ==> |SessionLogIds(logs + seed, i)| == |SessionLogIds(logs, i)|
    {
      assert SessionValid(cfg, db.sessions[i], i, |db.rounds|, logs);
      SeedKeepsSessionValid(cfg, db.sessions[i], i, |db.rounds|, logs, seed, sid);
    }
  }

  /** Seeding keeps every invariant and leaves the number of logs of every
      other session as it was. */
  lemma SeedKeepsValid(cfg: Config, db: Db, rid: nat, sid: nat, draw: seq<nat>)
    requires Valid(cfg, db) && rid < |db.rounds| && sid < |db.sessions|
    requires DrawFits(cfg, db, rid, draw)
    ensures Valid(cfg, db.(logs := Seeded(db.logs, sid, draw)))
    ensures forall i :: 0 <= i < |db.sessions| && i != sid ==>
      |SessionLogIds(Seeded(db.logs, sid, draw), i)| == |SessionLogIds(db.logs, i)|
  {
    if SessionLogIds(db.logs, sid) == [] {
      var logs' := db.logs + SeedLogs(sid, draw);
      SeedKeepsLogsValid(cfg, db, rid, sid, draw);
      SeedKeepsSessionsValid(cfg, db, rid, sid, draw);
      ValidFromParts(cfg, db, db.matches, db.sessions, logs');
      assert db.(logs := logs') == db.(matches := db.matches, sessions := db.sessions, logs := logs');
    }
  }

  /** Replacing one session by a valid one for the same (round, user), when
      every other session is valid against the new logs, keeps the sessions
      valid. */
  lemma ReplaceSessionKeepsValid(cfg: Config, ss: seq<RoundSession>, n: nat, logs: seq<AnswerLog>,
                                 logs': seq<AnswerLog>, sid: nat, s': RoundSession)
    requires SessionsValid(cfg, ss, n, logs) && sid < |ss|
    requires forall i :: 0 <= i < |ss| && i != sid ==> SessionValid(cfg, ss[i], i, n, logs')
    requires SessionValid(cfg, s', sid, n, logs')
    requires s'.roundId == ss[sid].roundId && s'.user == ss[sid].user
    ensures SessionsValid(cfg, ss[sid := s'], n, logs')
  {
  }

  /** Rewriting a log of another session leaves a session valid. */
  lemma OtherLogKeepsSessionValid(cfg: Config, s: RoundSession, i: nat, n: nat, logs: seq<AnswerLog>, lid: nat, l': AnswerLog)
    requires SessionValid(cfg, s, i, n, logs)
    requires lid < |logs| && logs[lid].sessionId != i && l'.sessionId == logs[lid].sessionId
    ensures SessionValid(cfg, s, i, n, logs[lid := l'])
  {
    IdsWhereUpdate(logs, lid, l', InSession(i));
    IdsWhereUpdate(logs, lid, l', CorrectInSession(i));
  }

  /** Rewriting a log of session `sid` within that session leaves every
      other session valid. */
  lemma OtherSessionsKeepValid(cfg: Config, ss: seq<RoundSession>, n: nat, logs: seq<AnswerLog>, lid: nat, l': AnswerLog, sid: nat)
    requires SessionsValid(cfg, ss, n, logs)
    requires lid < |logs| && logs[lid].sessionId == sid && l'.sessionId == sid
    ensures forall i :: 0 <= i < |ss| && i != sid ==> SessionValid(cfg, ss[i], i, n, logs[lid := l'])
  {
    forall i | 0 <= i < |ss| && i != sid ensures SessionValid(cfg, ss[i], i, n, logs[lid := l']) {
      OtherLogKeepsSessionValid(cfg, ss[i], i, n, logs, lid, l');
    }
  }

  /** The answered session itself stays valid: its score rises with the
      answer's correctness, and if the answer fills position
      QUESTIONS_PER_ROUND it may be stamped, all its logs being answered. */
  lemma AnswerKeepsOwnSessionValid(cfg: Config, s: RoundSession, sid: nat, n: nat, logs: seq<AnswerLog>,
                                   idx: nat, cid: nat, correct: bool, stamp: Option<Tick>)
    requires SessionValid(cfg, s, sid, n, logs)
    requires forall i :: 0 <= i < |logs| && logs[i].selectedChoice.None? ==> !logs[i].isCorrect
    requires FirstUnanswered(logs, SessionLogIds(logs, sid)) == Some(idx)
    requires stamp.Some? ==> idx + 1 >= cfg.questionsPerRound
    ensures var ids := SessionLogIds(logs, sid);
      && idx < |ids| && ids[idx] < |logs|
      && var lid := ids[idx];
      var logs' := logs[lid := logs[lid].(selectedChoice := Some(cid), isCorrect := correct)];
      var scored := if correct then s.(score := s.score + 1) else s;
      SessionValid(cfg, scored.(completedAt := if stamp.Some? then stamp else s.completedAt), sid, n, logs')
  {
    var ids := SessionLogIds(logs, sid);
    FirstUnansweredByKey(logs, sid);
    var lid := ids[idx];
    var l' := logs[lid].(selectedChoice := Some(cid), isCorrect := correct);
    var logs' := logs[lid := l'];
    IdsWhereUpdate(logs, lid, l', InSession(sid));
    IdsWhereUpdate(logs, lid, l', CorrectInSession(sid));
    if stamp.Some? {
      assert !AllAnswered(logs, sid);
      LastAnswerCompletes(logs, sid, idx, l');
    }
  }

  /** Answering the first unanswered log when it is the session's last one
      leaves every log of the session answered. */
  lemma LastAnswerCompletes(logs: seq<AnswerLog>, sid: nat, idx: nat, l': AnswerLog)
    requires FirstUnanswered(logs, SessionLogIds(logs, sid)) == Some(idx)
    requires idx + 1 >= |SessionLogIds(logs, sid)|
    requires l'.selectedChoice.Some? && l'.sessionId == sid
    ensures var ids := SessionLogIds(logs, sid);
      idx < |ids| && ids[idx] < |logs| && AllAnswered(logs[ids[idx] := l'], sid)
  {
    var ids := SessionLogIds(logs, sid);
    var lid := ids[idx];
    var logs' := logs[lid := l'];
    forall j | 0 <= j < |logs'| && logs'[j].sessionId == sid ensures logs'[j].selectedChoice.Some? {
      if j != lid {
        assert InSession(sid)(logs[j]);
        var k :| 0 <= k < |ids| && ids[k] == j;
      }
    }
  }

  /** Answering rewrites one log without moving it to another session, so
      no session's number of logs changes. */
  lemma AnswerKeepsLogCounts(cfg: Config, db: Db, rid: nat, sid: nat, lid: nat, idx: nat, cid: nat, phase: string, now: Tick)
    requires rid < |db.rounds| && db.rounds[rid].matchId < |db.matches|
    requires sid < |db.sessions| && lid < |db.logs| && cid < |db.choices|
    ensures var db' := Answer(cfg, db, rid, sid, lid, idx, cid, phase, now).0;
      forall i :: |SessionLogIds(db'.logs, i)| == |SessionLogIds(db.logs, i)|
  {
    var logs' := Answer(cfg, db, rid, sid, lid, idx, cid, phase, now).0.logs;
    assert logs' == db.logs[lid := logs'[lid]];
    forall i ensures |SessionLogIds(logs', i)| == |SessionLogIds(db.logs, i)| {
      IdsWhereUpdate(db.logs, lid, logs'[lid], InSession(i));
    }
  }

  /** Answering a log with an existing choice keeps the logs valid: the
      log records that choice and copies its correctness. */
  lemma AnswerKeepsLogsValid(cfg: Config, db: Db, rid: nat, sid: nat, lid: nat, idx: nat, cid: nat, phase: string, now: Tick)
    requires Valid(cfg, db) && rid < |db.rounds| && db.rounds[rid].matchId < |db.matches|
    requires sid < |db.sessions| && lid < |db.logs| && cid < |db.choices|
    ensures var db' := Answer(cfg, db, rid, sid, lid, idx, cid, phase, now).0;
      LogsValid(db'.logs, |db'.sessions|, db.questions, db.choices)
  {
    var db' := Answer(cfg, db, rid, sid, lid, idx, cid, phase, now).0;
    AnswerFrame(cfg, db, rid, sid, lid, idx, cid, phase, now);
    assert db'.logs[lid] == db.logs[lid].(selectedChoice := Some(cid), isCorrect := db.choices[cid].isCorrect);
    forall i | 0 <= i < |db'.logs| ensures LogValid(db'.logs[i], |db.sessions|, |db.questions|, db.choices) {
      assert LogValid(db.logs[i], |db.sessions|, |db.questions|, db.choices);
    }
  }

  /** Answering the first unanswered log of session `sid` with an existing
      choice keeps the sessions valid, whether or not it stamps the
      session. */
  lemma AnswerKeepsSessionsValid(cfg: Config, db: Db, rid: nat, sid: nat, idx: nat, cid: nat, phase: string, now: Tick)
    requires rid < |db.rounds| && db.rounds[rid].matchId < |db.matches|
    requires sid < |db.sessions| && cid < |db.choices|
    requires SessionsValid(cfg, db.sessions, |db.rounds|, db.logs)
    requires forall i :: 0 <= i < |db.logs| && db.logs[i].selectedChoice.None? ==> !db.logs[i].isCorrect
    requires FirstUnanswered(db.logs, SessionLogIds(db.logs, sid)) == Some(idx)
    ensures var ids := SessionLogIds(db.logs, sid);
      && idx < |ids| && ids[idx] < |db.logs|
      && var db' := Answer(cfg, db, rid, sid, ids[idx], idx, cid, phase, now).0;
      SessionsValid(cfg, db'.sessions, |db.rounds|, db'.logs)
  {
    var ids := SessionLogIds(db.logs, sid);
    FirstUnansweredByKey(db.logs, sid);
    var lid := ids[idx];
    var db' := Answer(cfg, db, rid, sid, lid, idx, cid, phase, now).0;
    var stamp := if idx + 1 < cfg.questionsPerRound then None else Some(now);
    var s := db.sessions[sid];
    var scored := if db.choices[cid].isCorrect then s.(score := s.score + 1) else s;
    var s' := scored.(completedAt := if stamp.Some? then stamp else s.completedAt);
    var l' := db.logs[lid].(selectedChoice := Some(cid), isCorrect := db.choices[cid].isCorrect);
    assert db'.logs == db.logs[lid := l'];
    assert db'.sessions == db.sessions[sid := s'];
    assert SessionValid(cfg, s, sid, |db.rounds|, db.logs);
    AnswerKeepsOwnSessionValid(cfg, s, sid, |db.rounds|, db.logs, idx, cid, db.choices[cid].isCorrect, stamp);
    assert db.logs[lid].sessionId == sid;
    OtherSessionsKeepValid(cfg, db.sessions, |db.rounds|, db.logs, lid, l', sid);
    ReplaceSessionKeepsValid(cfg, db.sessions, |db.rounds|, db.logs, db'.logs, sid, s');
  }

  /** Finishing the opponent's phase raises the match's round counter by one
      and marks it COMPLETED past TOTAL_ROUNDS; this keeps the matches and
      the rounds valid, because the opponent's turn needs player2, so the
      match is not WAITING. */
  lemma AdvanceKeepsValid(cfg: Config, db: Db, rid: nat, u: UserId, phase: string, ms': seq<GameMatch>, moved: bool)
    requires Valid(cfg, db) && rid < |db.rounds|
    requires moved ==> phase != "self" && Some(u) == Turn(db.matches[db.rounds[rid].matchId], db.rounds[rid], phase)
    requires Advanced(cfg, db.matches, ms', db.rounds[rid].matchId, moved)
    ensures MatchesValid(ms')
    ensures RoundsValid(cfg, db.rounds, ms', |db.categories|)
  {
    var mid := db.rounds[rid].matchId;
    var ms := db.matches;
    if moved {
      TurnOrder(cfg, db, rid, phase);
      assert MatchValid(ms[mid]);
    }
    forall i | 0 <= i < |ms'|
      ensures MatchValid(ms'[i]) && Players(ms'[i]) == Players(ms[i])
      ensures Active(ms'[i]) ==> Active(ms[i])
      ensures ms'[i].status != Waiting || ms[i].status == Waiting
    {
      assert MatchValid(ms[i]);
    }
    RoundsValidAfterMatchUpdate(cfg, db.rounds, ms, ms', |db.categories|);
  }

  lemma AnswerKeepsValid(cfg: Config, db: Db, rid: nat, u: UserId, sid: nat, idx: nat, cid: nat, phase: string, now: Tick)
    requires Valid(cfg, db) && rid < |db.rounds|
    requires Some(u) == Turn(db.matches[db.rounds[rid].matchId], db.rounds[rid], phase)
    requires sid < |db.sessions| && cid < |db.choices|
    requires FirstUnanswered(db.logs, SessionLogIds(db.logs, sid)) == Some(idx)
    ensures var ids := SessionLogIds(db.logs, sid);
      && idx < |ids| && ids[idx] < |db.logs|
      && Valid(cfg, Answer(cfg, db, rid, sid, ids[idx], idx, cid, phase, now).0)
  {
    ValidRoundRefs(cfg, db);
    forall i | 0 <= i < |db.logs| && db.logs[i].selectedChoice.None? ensures !db.logs[i].isCorrect {
      assert LogValid(db.logs[i], |db.sessions|, |db.questions|, db.choices);
    }
    AnswerKeepsSessionsValid(cfg, db, rid, sid, idx, cid, phase, now);
    var lid := SessionLogIds(db.logs, sid)[idx];
    AnswerKeepsLogsValid(cfg, db, rid, sid, lid, idx, cid, phase, now);
    var db' := Answer(cfg, db, rid, sid, lid, idx, cid, phase, now).0;
    AnswerFrame(cfg, db, rid, sid, lid, idx, cid, phase, now);
    AnswerMatches(cfg, db, rid, sid, lid, idx, cid, phase, now);
    AdvanceKeepsValid(cfg, db, rid, u, phase, db'.matches, idx + 1 >= cfg.questionsPerRound && phase != "self");
    assert db' == db.(matches := db'.matches, sessions := db'.sessions, logs := db'.logs);
    ValidFromParts(cfg, db, db'.matches, db'.sessions, db'.logs);
  }

  /** The matches after one answer: the round's match is advanced by one
      round (see `Advanced`) exactly when the answer closes a phase other
      than 'self'; every other match, and otherwise every match, stays. */
  lemma AnswerMatches(cfg: Config, db: Db, rid: nat, sid: nat, lid: nat, idx: nat, cid: nat, phase: string, now: Tick)
    requires rid < |db.rounds| && db.rounds[rid].matchId < |db.matches|
    requires sid < |db.sessions| && lid < |db.logs| && cid < |db.choices|
    ensures var ms' := Answer(cfg, db, rid, sid, lid, idx, cid, phase, now).0.matches;
      Advanced(cfg, db.matches, ms', db.rounds[rid].matchId, idx + 1 >= cfg.questionsPerRound && phase != "self")
  {
  }

  /** The invariants of a database whose question bank and rounds are those
      of a valid one, from the invariants of its new matches, sessions and
      logs. */
  lemma ValidFromParts(cfg: Config, db: Db, ms': seq<GameMatch>, ss': seq<RoundSession>, logs': seq<AnswerLog>)
    requires Valid(cfg, db)
    requires MatchesValid(ms') && RoundsValid(cfg, db.rounds, ms', |db.categories|)
    requires SessionsValid(cfg, ss', |db.rounds|, logs') && LogsValid(logs', |ss'|, db.questions, db.choices)
    ensures Valid(cfg, db.(matches := ms', sessions := ss', logs := logs'))
  {
  }

  /** play_round keeps every invariant: scores equal the correct answers,
      no session has more than QUESTIONS_PER_ROUND logs, a stamped session
      has all of them answered, and the matches stay consistent. */
  lemma PlayRoundPreservesValid(cfg: Config, db: Db, rid: nat, u: UserId, phase: string, draw: seq<nat>,
                                form: Form<nat>, now: Tick)
    requires Valid(cfg, db)
    requires rid < |db.rounds| ==> DrawFits(cfg, db, rid, draw)
    ensures RoundRefs(db) && Valid(cfg, PlayRound(cfg, db, rid, u, phase, draw, form, now).0)
  {
    ValidRoundRefs(cfg, db);
    var db' := PlayRound(cfg, db, rid, u, phase, draw, form, now).0;
    if rid < |db.rounds| && Some(u) == Turn(db.matches[db.rounds[rid].matchId], db.rounds[rid], phase)
       && SessionOf(db.sessions, rid, u).Some?
    {
      var sid := SessionOf(db.sessions, rid, u).value;
      SeedKeepsValid(cfg, db, rid, sid, draw);
      var seeded := db.(logs := Seeded(db.logs, sid, draw));
      var next := FirstUnanswered(seeded.logs, SessionLogIds(seeded.logs, sid));
      if next.Some? && form.Post? && form.field.Some? && form.field.value < |db.choices| {
        PlayRoundAnswerStep(cfg, db, rid, u, phase, draw, form.field.value, now, sid, next.value);
        AnswerKeepsValid(cfg, seeded, rid, u, sid, next.value, form.field.value, phase, now);
      } else {
        PlayRoundSeedOnly(cfg, db, rid, u, phase, draw, form, now, sid);
      }
    } else {
      assert db' == db;
    }
  }

  // ---- What a request changes ----

  /** Answering rewrites only log `lid` and session `sid`, and may change
      the matches' contents but not their number. */
  lemma AnswerFrame(cfg: Config, db: Db, rid: nat, sid: nat, lid: nat, idx: nat, cid: nat, phase: string, now: Tick)
    requires rid < |db.rounds| && db.rounds[rid].matchId < |db.matches|
    requires sid < |db.sessions| && lid < |db.logs| && cid < |db.choices|
    ensures var db' := Answer(cfg, db, rid, sid, lid, idx, cid, phase, now).0;
      && db'.(matches := db.matches, sessions := db.sessions, logs := db.logs) == db
      && |db'.matches| == |db.matches| && |db'.sessions| == |db.sessions| && |db'.logs| == |db.logs|
      && (forall i :: 0 <= i < |db.sessions| && i != sid ==> db'.sessions[i] == db.sessions[i])
      && (forall i :: 0 <= i < |db.logs| && i != lid ==> db'.logs[i] == db.logs[i])
      && db'.logs[lid].sessionId == db.logs[lid].sessionId
  {
  }

  /** play_round never touches the question bank or the rounds and creates
      no match or session.  It changes something only for the player whose
      turn it is and who has a session in the round; then it changes no
      other session, and every log it adds or rewrites is that session's. */
  lemma PlayRoundFrame(cfg: Config, db: Db, rid: nat, u: UserId, phase: string, draw: seq<nat>,
                       form: Form<nat>, now: Tick)
    requires RoundRefs(db)
    ensures var (db', o) := PlayRound(cfg, db, rid, u, phase, draw, form, now);
      && db'.categories == db.categories && db'.questions == db.questions && db'.choices == db.choices
      && db'.rounds == db.rounds
      && |db'.matches| == |db.matches| && |db'.sessions| == |db.sessions| && |db'.logs| >= |db.logs|
      && (db' != db ==>
            && rid < |db.rounds|
            && Some(u) == Turn(db.matches[db.rounds[rid].matchId], db.rounds[rid], phase)
            && SessionOf(db.sessions, rid, u).Some?
            && var sid := SessionOf(db.sessions, rid, u).value;
            && sid < |db.sessions| && db.sessions[sid].roundId == rid && db.sessions[sid].user == u
            && (forall i :: 0 <= i < |db.sessions| && i != sid ==> db'.sessions[i] == db.sessions[i])
            && (forall i :: 0 <= i < |db'.logs| ==>
                  (i < |db.logs| && db'.logs[i] == db.logs[i]) || db'.logs[i].sessionId == sid))
  {
    if rid < |db.rounds| && Some(u) == Turn(db.matches[db.rounds[rid].matchId], db.rounds[rid], phase) {
      match SessionOf(db.sessions, rid, u)
      case None =>
      case Some(sid) =>
        var logs := Seeded(db.logs, sid, draw);
        SeededFrame(db.logs, sid, draw);
        var seeded := db.(logs := logs);
        var ids := SessionLogIds(logs, sid);
        match FirstUnanswered(logs, ids)
        case None =>
        case Some(idx) =>
          var lid := ids[idx];
          assert InSession(sid)(logs[lid]);
          match form
          case Get =>
          case Post(None) =>
          case Post(Some(cid)) =>
            if cid < |db.choices| {
              AnswerFrame(cfg, seeded, rid, sid, lid, idx, cid, phase, now);
              var db' := Answer(cfg, seeded, rid, sid, lid, idx, cid, phase, now).0;
              forall i | 0 <= i < |db'.logs|
                ensures (i < |db.logs| && db'.logs[i] == db.logs[i]) || db'.logs[i].sessionId == sid
              {
                if i != lid {
                  assert db'.logs[i] == logs[i];
                }
              }
            }
    }
  }

  /** Seeding keeps every existing log and adds only logs of the seeded
      session. */
  lemma SeededFrame(logs: seq<AnswerLog>, sid: nat, draw: seq<nat>)
    ensures var logs' := Seeded(logs, sid, draw);
      && |logs'| >= |logs|
      && forall i :: 0 <= i < |logs'| ==> (i < |logs| && logs'[i] == logs[i]) || logs'[i].sessionId == sid
  {
  }

  /** The logs the seeding appends: one unanswered log of session `sid` per
      drawn question, each an approved question of the round's category,
      no question twice. */
  lemma SeedLogsFit(cfg: Config, db: Db, rid: nat, sid: nat, draw: seq<nat>)
    requires rid < |db.rounds| && DrawFits(cfg, db, rid, draw)
    ensures var seed := SeedLogs(sid, draw);
      var cat := db.rounds[rid].categoryId;
      && |seed| == Min(|ApprovedPool(db.questions, cat)|, cfg.questionsPerRound)
      && (forall k :: 0 <= k < |seed| ==>
            && seed[k].sessionId == sid && seed[k].selectedChoice.None?
            && seed[k].questionId < |db.questions|
            && db.questions[seed[k].questionId].categoryId == cat
            && db.questions[seed[k].questionId].approved)
      && (forall k, k' :: 0 <= k < k' < |seed| ==> seed[k].questionId != seed[k'].questionId)
  {
    DrawnQuestions(cfg, db, rid, draw);
  }

  /** Seeding appends only, and only to a session without logs; a session
      seeded with at least one question is never seeded again. */
  lemma SeedOnce(db: Db, sid: nat, draw: seq<nat>, draw': seq<nat>)
    ensures var logs' := Seeded(db.logs, sid, draw);
      && |logs'| >= |db.logs| && logs'[..|db.logs|] == db.logs
      && (SessionLogIds(db.logs, sid) != [] ==> logs' == db.logs)
      && (SessionLogIds(db.logs, sid) != [] || draw != [] ==> Seeded(logs', sid, draw') == logs')
  {
    var logs := db.logs;
    if SessionLogIds(logs, sid) == [] {
      var logs' := logs + SeedLogs(sid, draw);
      assert logs'[..|logs|] == logs;
      if draw != [] {
        assert InSession(sid)(logs'[|logs|]);
        assert SessionLogIds(logs', sid) != [];
      }
    }
  }

  /** Appending logs of session `sid` to a log table where it has none
      gives it exactly those. */
  lemma SeedCount(logs: seq<AnswerLog>, sid: nat, seed: seq<AnswerLog>)
    requires SessionLogIds(logs, sid) == []
    requires forall k :: 0 <= k < |seed| ==> seed[k].sessionId == sid
    ensures |SessionLogIds(logs + seed, sid)| == |seed|
  {
    IdsWhereConcat(logs, seed, InSession(sid));
    IdsWhereCount(seed, InSession(sid));
  }

  /** The first view of a session without logs gives it, after every
      existing log, one unanswered log per drawn question:
      min(approved questions of the round's category, QUESTIONS_PER_ROUND)
      distinct approved questions of that category. */
  lemma SeedContents(cfg: Config, db: Db, rid: nat, sid: nat, draw: seq<nat>)
    requires rid < |db.rounds| && DrawFits(cfg, db, rid, draw)
    requires SessionLogIds(db.logs, sid) == []
    ensures var logs' := Seeded(db.logs, sid, draw);
      var cat := db.rounds[rid].categoryId;
      && |db.logs| <= |logs'| && logs'[..|db.logs|] == db.logs
      && var added := logs'[|db.logs|..];
      && |added| == |SessionLogIds(logs', sid)| == Min(|ApprovedPool(db.questions, cat)|, cfg.questionsPerRound)
      && (forall k :: 0 <= k < |added| ==>
            && added[k].sessionId == sid && added[k].selectedChoice.None?
            && added[k].questionId < |db.questions|
            && db.questions[added[k].questionId].categoryId == cat
            && db.questions[added[k].questionId].approved)
      && (forall k, k' :: 0 <= k < k' < |added| ==> added[k].questionId != added[k'].questionId)
  {
    var logs := db.logs;
    var seed := SeedLogs(sid, draw);
    var logs' := logs + seed;
    assert Seeded(logs, sid, draw) == logs';
    assert logs'[..|logs|] == logs && logs'[|logs|..] == seed;
    SeedLogsFit(cfg, db, rid, sid, draw);
    SeedCount(logs, sid, seed);
  }

  /** A POST naming an existing choice answers the requester's unanswered
      log with the smallest primary key, and no other log: that log records
      the choice and copies the choice's correctness, and the score rises by
      one exactly when the choice is correct.  When every log of the session
      is answered, only the seeding happens and the player is sent to
      round_complete. */
  lemma PlayRoundAnswers(cfg: Config, db: Db, rid: nat, u: UserId, phase: string, draw: seq<nat>, cid: nat, now: Tick)
    requires RoundRefs(db) && rid < |db.rounds|
    requires Some(u) == Turn(db.matches[db.rounds[rid].matchId], db.rounds[rid], phase)
    requires SessionOf(db.sessions, rid, u).Some? && cid < |db.choices|
    ensures var sid := SessionOf(db.sessions, rid, u).value;
      var logs := Seeded(db.logs, sid, draw);
      var (db', o) := PlayRound(cfg, db, rid, u, phase, draw, Post(Some(cid)), now);
      && sid < |db.sessions| && sid < |db'.sessions|
      && (AllAnswered(logs, sid) ==> db' == db.(logs := logs) && o == ToRoundComplete(rid))
      && (!AllAnswered(logs, sid) ==>
            exists lid ::
              && 0 <= lid < |logs| && logs[lid].sessionId == sid && logs[lid].selectedChoice.None?
              && (forall j :: 0 <= j < lid && logs[j].sessionId == sid ==> logs[j].selectedChoice.Some?)
              && db'.logs == logs[lid := logs[lid].(selectedChoice := Some(cid), isCorrect := db.choices[cid].isCorrect)]
              && db'.sessions[sid].score == db.sessions[sid].score + (if db.choices[cid].isCorrect then 1 else 0))
  {
    var sid := SessionOf(db.sessions, rid, u).value;
    var logs := Seeded(db.logs, sid, draw);
    FirstUnansweredByKey(logs, sid);
    var ids := SessionLogIds(logs, sid);
    match FirstUnanswered(logs, ids)
    case None =>
    case Some(idx) =>
      var lid := ids[idx];
      var seeded := db.(logs := logs);
      PlayRoundAnswerStep(cfg, db, rid, u, phase, draw, cid, now, sid, idx);
      var db' := PlayRound(cfg, db, rid, u, phase, draw, Post(Some(cid)), now).0;
      assert !AllAnswered(logs, sid) by {
        assert logs[lid].sessionId == sid && logs[lid].selectedChoice.None?;
      }
      assert db'.logs == logs[lid := logs[lid].(selectedChoice := Some(cid), isCorrect := db.choices[cid].isCorrect)];
      assert db'.sessions[sid].score == db.sessions[sid].score + (if db.choices[cid].isCorrect then 1 else 0);
      assert 0 <= lid < |logs| && logs[lid].sessionId == sid && logs[lid].selectedChoice.None?;
  }

  /** When the requester's session has an unanswered log, a POST with an
      existing choice is the answer step on the seeded database. */
  lemma PlayRoundAnswerStep(cfg: Config, db: Db, rid: nat, u: UserId, phase: string, draw: seq<nat>, cid: nat, now: Tick,
                            sid: nat, idx: nat)
    requires RoundRefs(db) && rid < |db.rounds|
    requires Some(u) == Turn(db.matches[db.rounds[rid].matchId], db.rounds[rid], phase)
    requires SessionOf(db.sessions, rid, u) == Some(sid) && cid < |db.choices|
    requires FirstUnanswered(Seeded(db.logs, sid, draw), SessionLogIds(Seeded(db.logs, sid, draw), sid)) == Some(idx)
    ensures var logs := Seeded(db.logs, sid, draw);
      var ids := SessionLogIds(logs, sid);
      && idx < |ids| && ids[idx] < |logs| && sid < |db.sessions|
      && PlayRound(cfg, db, rid, u, phase, draw, Post(Some(cid)), now)
         == Answer(cfg, db.(logs := logs), rid, sid, ids[idx], idx, cid, phase, now)
  {
    FirstUnansweredByKey(Seeded(db.logs, sid, draw), sid);
  }

  /** A request that answers nothing (all answered, a GET, or a POST
      without a valid choice) only seeds the requester's logs. */
  lemma PlayRoundSeedOnly(cfg: Config, db: Db, rid: nat, u: UserId, phase: string, draw: seq<nat>, form: Form<nat>,
                          now: Tick, sid: nat)
    requires RoundRefs(db) && rid < |db.rounds|
    requires Some(u) == Turn(db.matches[db.rounds[rid].matchId], db.rounds[rid], phase)
    requires SessionOf(db.sessions, rid, u) == Some(sid)
    requires var logs := Seeded(db.logs, sid, draw);
      !(FirstUnanswered(logs, SessionLogIds(logs, sid)).Some? && form.Post? && form.field.Some? && form.field.value < |db.choices|)
    ensures PlayRound(cfg, db, rid, u, phase, draw, form, now).0 == db.(logs := Seeded(db.logs, sid, draw))
  {
  }

  // ---- Completing a phase ----

  /** A session stamped complete is never seeded again and has nothing left
      to answer, so play_round only sends its player to round_complete. */
  lemma CompletedSessionIsDone(cfg: Config, db: Db, sid: nat, draw: seq<nat>)
    requires Valid(cfg, db) && sid < |db.sessions| && db.sessions[sid].completedAt.Some?
    ensures Seeded(db.logs, sid, draw) == db.logs
    ensures FirstUnanswered(db.logs, SessionLogIds(db.logs, sid)).None?
  {
    assert SessionValid(cfg, db.sessions[sid], sid, |db.rounds|, db.logs);
    FirstUnansweredByKey(db.logs, sid);
  }

  /** Match bookkeeping of one answer: the phase is stamped exactly when
      the answer fills position QUESTIONS_PER_ROUND, and only stamping a
      phase other than 'self' moves the round's match, by one round. */
  lemma AnswerAdvances(cfg: Config, db: Db, rid: nat, sid: nat, lid: nat, idx: nat, cid: nat, phase: string, now: Tick)
    requires rid < |db.rounds| && db.rounds[rid].matchId < |db.matches|
    requires sid < |db.sessions| && lid < |db.logs| && cid < |db.choices|
    requires db.sessions[sid].completedAt.None?
    ensures var (db', o) := Answer(cfg, db, rid, sid, lid, idx, cid, phase, now);
      && |db'.sessions| == |db.sessions| && |db'.matches| == |db.matches|
      && var completes := db'.sessions[sid].completedAt.Some?;
      && (completes <==> idx + 1 >= cfg.questionsPerRound)
      && (completes ==> o == (if phase == "self" then ToPlayRound(rid, "opponent") else ToRoundComplete(rid)))
      && (db'.matches != db.matches <==> completes && phase != "self")
      && Advanced(cfg, db.matches, db'.matches, db.rounds[rid].matchId, completes && phase != "self")
  {
    var (db', o) := Answer(cfg, db, rid, sid, lid, idx, cid, phase, now);
    if idx + 1 >= cfg.questionsPerRound && phase != "self" {
      var mid := db.rounds[rid].matchId;
      assert db'.matches[mid] != db.matches[mid];
    }
  }

  /** The match's round counter moves exactly when a request completes the
      phase of a player whose phase is not 'self': it rises by one; the
      match is COMPLETED afterwards exactly when it was before or the new
      counter exceeds TOTAL_ROUNDS, and otherwise keeps its status; its
      players never change and no other match changes.  Completing phase
      'self' leads to phase 'opponent'. */
  lemma PlayRoundAdvances(cfg: Config, db: Db, rid: nat, u: UserId, phase: string, draw: seq<nat>,
                          form: Form<nat>, now: Tick)
    requires Valid(cfg, db)
    requires rid < |db.rounds| ==> DrawFits(cfg, db, rid, draw)
    ensures RoundRefs(db)
    ensures var (db', o) := PlayRound(cfg, db, rid, u, phase, draw, form, now);
      var so := SessionOf(db.sessions, rid, u);
      && |db'.matches| == |db.matches| && |db'.sessions| == |db.sessions|
      && var completes := so.Some? && so.value < |db.sessions|
           && db.sessions[so.value].completedAt.None? && db'.sessions[so.value].completedAt.Some?;
      && (completes ==> o == (if phase == "self" then ToPlayRound(rid, "opponent") else ToRoundComplete(rid)))
      && (db'.matches != db.matches <==> completes && phase != "self")
      && (completes ==> rid < |db.rounds|)
      && Advanced(cfg, db.matches, db'.matches, if rid < |db.rounds| then db.rounds[rid].matchId else 0,
                  completes && phase != "self")
  {
    ValidRoundRefs(cfg, db);
    var (db', o) := PlayRound(cfg, db, rid, u, phase, draw, form, now);
    if rid < |db.rounds| && Some(u) == Turn(db.matches[db.rounds[rid].matchId], db.rounds[rid], phase)
       && SessionOf(db.sessions, rid, u).Some?
    {
      var sid := SessionOf(db.sessions, rid, u).value;
      var seeded := db.(logs := Seeded(db.logs, sid, draw));
      var ids := SessionLogIds(seeded.logs, sid);
      if db.sessions[sid].completedAt.Some? {
        CompletedSessionIsDone(cfg, db, sid, draw);
      }
      var next := FirstUnanswered(seeded.logs, ids);
      if next.Some? && form.Post? && form.field.Some? && form.field.value < |db.choices| {
        var idx, cid := next.value, form.field.value;
        PlayRoundAnswerStep(cfg, db, rid, u, phase, draw, cid, now, sid, idx);
        AnswerAdvances(cfg, seeded, rid, sid, ids[idx], idx, cid, phase, now);
      } else {
        PlayRoundSeedOnly(cfg, db, rid, u, phase, draw, form, now, sid);
        AdvancedNone(cfg, db.matches, db.rounds[rid].matchId);
      }
    } else {
      assert db' == db;
      AdvancedNone(cfg, db.matches, if rid < |db.rounds| then db.rounds[rid].matchId else 0);
    }
  }

  /** `ms'` is `ms` with match `mid` advanced by one round when `moved`:
      the players and start time stay, the counter rises by one only for a
      moved match, and a match turns COMPLETED only when it was already or
      when it moves past TOTAL_ROUNDS; otherwise its status stays. */
  ghost predicate Advanced(cfg: Config, ms: seq<GameMatch>, ms': seq<GameMatch>, mid: nat, moved: bool)
  {
    && |ms'| == |ms|
    && forall i :: 0 <= i < |ms| ==>
         var m, m' := ms[i], ms'[i];
         var mv := moved && i == mid;
         && m'.player1 == m.player1 && m'.player2 == m.player2 && m'.startedAt == m.startedAt
         && m'.currentRound == m.currentRound + (if mv then 1 else 0)
         && (m'.status == Completed <==> m.status == Completed || (mv && m'.currentRound > cfg.totalRounds))
         && (m'.status != Completed ==> m'.status == m.status)
  }

  lemma AdvancedNone(cfg: Config, ms: seq<GameMatch>, mid: nat)
    ensures Advanced(cfg, ms, ms, mid, false)
  {
  }

  /** A GET changes nothing but the seeding.  It shows the question of the
      requester's first unanswered log, with every choice of that question,
      as position idx + 1 of QUESTIONS_PER_ROUND, a position no greater than
      the session's number of logs. */
  lemma PlayRoundShowsQuestion(cfg: Config, db: Db, rid: nat, u: UserId, phase: string, draw: seq<nat>, now: Tick)
    requires Valid(cfg, db)
    requires rid < |db.rounds| ==> DrawFits(cfg, db, rid, draw)
    ensures RoundRefs(db)
    ensures var (db', o) := PlayRound(cfg, db, rid, u, phase, draw, Get, now);
      && db'.(logs := db.logs) == db
      && (o.ShowQuestion? ==>
            && rid < |db.rounds| && SessionOf(db.sessions, rid, u).Some?
            && var sid := SessionOf(db.sessions, rid, u).value;
            && db'.logs == Seeded(db.logs, sid, draw)
            && ShowsNextQuestion(cfg, db, db'.logs, sid, o))
  {
    ValidRoundRefs(cfg, db);
    var (db', o) := PlayRound(cfg, db, rid, u, phase, draw, Get, now);
    if rid < |db.rounds| && Some(u) == Turn(db.matches[db.rounds[rid].matchId], db.rounds[rid], phase)
       && SessionOf(db.sessions, rid, u).Some?
    {
      ShowsQuestionInSession(cfg, db, rid, u, phase, draw, now);
    } else {
      assert db' == db && !o.ShowQuestion?;
    }
  }

  lemma ShowsQuestionInSession(cfg: Config, db: Db, rid: nat, u: UserId, phase: string, draw: seq<nat>, now: Tick)
    requires Valid(cfg, db) && RoundRefs(db) && rid < |db.rounds| && DrawFits(cfg, db, rid, draw)
    requires Some(u) == Turn(db.matches[db.rounds[rid].matchId], db.rounds[rid], phase)
    requires SessionOf(db.sessions, rid, u).Some?
    ensures var (db', o) := PlayRound(cfg, db, rid, u, phase, draw, Get, now);
      var sid := SessionOf(db.sessions, rid, u).value;
      && db' == db.(logs := Seeded(db.logs, sid, draw))
      && (o.ShowQuestion? ==> ShowsNextQuestion(cfg, db, db'.logs, sid, o))
  {
    var (db', o) := PlayRound(cfg, db, rid, u, phase, draw, Get, now);
    var sid := SessionOf(db.sessions, rid, u).value;
    var logs := Seeded(db.logs, sid, draw);
    var next := FirstUnanswered(logs, SessionLogIds(logs, sid));
    if next.Some? {
      assert SessionValid(cfg, db.sessions[sid], sid, |db.rounds|, logs)
          && LogsValid(logs, |db.sessions|, db.questions, db.choices) by {
        SeedKeepsValid(cfg, db, rid, sid, draw);
      }
      ShownQuestion(cfg, db, logs, sid, next.value);
      PlayRoundGetStep(cfg, db, rid, u, phase, draw, now, sid, next.value);
    } else {
      assert (db', o) == (db.(logs := logs), ToRoundComplete(rid));
    }
  }

  lemma PlayRoundGetStep(cfg: Config, db: Db, rid: nat, u: UserId, phase: string, draw: seq<nat>, now: Tick,
                         sid: nat, idx: nat)
    requires RoundRefs(db) && rid < |db.rounds|
    requires Some(u) == Turn(db.matches[db.rounds[rid].matchId], db.rounds[rid], phase)
    requires SessionOf(db.sessions, rid, u) == Some(sid)
    requires FirstUnanswered(Seeded(db.logs, sid, draw), SessionLogIds(Seeded(db.logs, sid, draw), sid)) == Some(idx)
    ensures var logs := Seeded(db.logs, sid, draw);
      var ids := SessionLogIds(logs, sid);
      && idx < |ids| && ids[idx] < |logs|
      && var qid := logs[ids[idx]].questionId;
      PlayRound(cfg, db, rid, u, phase, draw, Get, now)
        == (db.(logs := logs), ShowQuestion(qid, ChoicesOf(db.choices, qid), idx + 1, cfg.questionsPerRound))
  {
    FirstUnansweredByKey(Seeded(db.logs, sid, draw), sid);
  }

  /** `o` shows session `sid`'s first unanswered log in `logs`: its
      position among the session's logs (counted from 1, out of
      QUESTIONS_PER_ROUND), its question, which is in the bank, and exactly
      that question's choices. */
  ghost predicate ShowsNextQuestion(cfg: Config, db: Db, logs: seq<AnswerLog>, sid: nat, o: Outcome)
  {
    && o.ShowQuestion?
    && o.total == cfg.questionsPerRound
    && 1 <= o.position <= |SessionLogIds(logs, sid)| <= cfg.questionsPerRound
    && o.questionId < |db.questions|
    && var lid := SessionLogIds(logs, sid)[o.position - 1];
    && lid < |logs| && logs[lid].sessionId == sid
    && logs[lid].selectedChoice.None? && logs[lid].questionId == o.questionId
    && (forall j :: 0 <= j < lid && logs[j].sessionId == sid ==> logs[j].selectedChoice.Some?)
    && (forall c :: c in o.choiceIds <==> 0 <= c < |db.choices| && db.choices[c].questionId == o.questionId)
  }

  /** The question play_round shows for the first unanswered log is a
      question of the bank, at a position within the session's logs, shown
      with exactly its own choices. */
  lemma ShownQuestion(cfg: Config, db: Db, logs: seq<AnswerLog>, sid: nat, idx: nat)
    requires sid < |db.sessions| && SessionValid(cfg, db.sessions[sid], sid, |db.rounds|, logs)
    requires LogsValid(logs, |db.sessions|, db.questions, db.choices)
    requires FirstUnanswered(logs, SessionLogIds(logs, sid)) == Some(idx)
    ensures var ids := SessionLogIds(logs, sid);
      && idx < |ids| <= cfg.questionsPerRound && ids[idx] < |logs|
      && var qid := logs[ids[idx]].questionId;
      && ShowsNextQuestion(cfg, db, logs, sid, ShowQuestion(qid, ChoicesOf(db.choices, qid), idx + 1, cfg.questionsPerRound))
  {
    FirstUnansweredByKey(logs, sid);
    var ids := SessionLogIds(logs, sid);
    var lid := ids[idx];
    var qid := logs[lid].questionId;
    assert LogValid(logs[lid], |db.sessions|, |db.questions|, db.choices);
    ChoicesOfQuestion(db.choices, qid);
    ShowsNextQuestionIntro(cfg, db, logs, sid, idx, ChoicesOf(db.choices, qid));
  }

  lemma ChoicesOfQuestion(cs: seq<Choice>, qid: nat)
    ensures forall c :: c in ChoicesOf(cs, qid) <==> 0 <= c < |cs| && cs[c].questionId == qid
  {
    forall c ensures c in ChoicesOf(cs, qid) <==> 0 <= c < |cs| && cs[c].questionId == qid {
    }
  }

  lemma ShowsNextQuestionIntro(cfg: Config, db: Db, logs: seq<AnswerLog>, sid: nat, idx: nat, choiceIds: seq<nat>)
    requires idx < |SessionLogIds(logs, sid)| <= cfg.questionsPerRound
    requires var lid := SessionLogIds(logs, sid)[idx];
      && lid < |logs| && logs[lid].sessionId == sid && logs[lid].selectedChoice.None?
      && logs[lid].questionId < |db.questions|
      && (forall j :: 0 <= j < lid && logs[j].sessionId == sid ==> logs[j].selectedChoice.Some?)
      && (forall c :: c in choiceIds <==> 0 <= c < |db.choices| && db.choices[c].questionId == logs[lid].questionId)
    ensures var qid := logs[SessionLogIds(logs, sid)[idx]].questionId;
      ShowsNextQuestion(cfg, db, logs, sid, ShowQuestion(qid, choiceIds, idx + 1, cfg.questionsPerRound))
  {
  }

  /** A phase is stamped complete only when every one of its
      QUESTIONS_PER_ROUND logs is answered. */
  lemma PlayRoundCompletesWhenAllAnswered(cfg: Config, db: Db, rid: nat, u: UserId, phase: string, draw: seq<nat>,
                                          form: Form<nat>, now: Tick)
    requires Valid(cfg, db)
    requires rid < |db.rounds| ==> DrawFits(cfg, db, rid, draw)
    ensures RoundRefs(db)
    ensures var db' := PlayRound(cfg, db, rid, u, phase, draw, form, now).0;
      forall sid :: 0 <= sid < |db.sessions| && db.sessions[sid].completedAt.None? &&
                    sid < |db'.sessions| && db'.sessions[sid].completedAt.Some? ==>
        && 0 < cfg.questionsPerRound
        && |SessionLogIds(db'.logs, sid)| == cfg.questionsPerRound
        && AllAnswered(db'.logs, sid)
  {
    PlayRoundPreservesValid(cfg, db, rid, u, phase, draw, form, now);
    var db' := PlayRound(cfg, db, rid, u, phase, draw, form, now).0;
    forall sid | 0 <= sid < |db.sessions| && db.sessions[sid].completedAt.None? &&
                 sid < |db'.sessions| && db'.sessions[sid].completedAt.Some?
      ensures 0 < cfg.questionsPerRound
      ensures |SessionLogIds(db'.logs, sid)| == cfg.questionsPerRound && AllAnswered(db'.logs, sid)
    {
      assert SessionValid(cfg, db'.sessions[sid], sid, |db'.rounds|, db'.logs);
    }
  }

  /** Every session of round `rid` has fewer than QUESTIONS_PER_ROUND logs. */
  ghost predicate ShortSessions(cfg: Config, db: Db, rid: nat)
  {
    forall sid :: 0 <= sid < |db.sessions| && db.sessions[sid].roundId == rid ==>
      |SessionLogIds(db.logs, sid)| < cfg.questionsPerRound
  }

  /** Seeding from a pool shorter than QUESTIONS_PER_ROUND keeps every
      session of the round short. */
  lemma ShortSeed(cfg: Config, db: Db, rid: nat, sid: nat, draw: seq<nat>)
    requires Valid(cfg, db) && rid < |db.rounds| && DrawFits(cfg, db, rid, draw)
    requires sid < |db.sessions| && db.sessions[sid].roundId == rid
    requires |ApprovedPool(db.questions, db.rounds[rid].categoryId)| < cfg.questionsPerRound
    requires ShortSessions(cfg, db, rid)
    ensures Valid(cfg, db.(logs := Seeded(db.logs, sid, draw)))
    ensures ShortSessions(cfg, db.(logs := Seeded(db.logs, sid, draw)), rid)
  {
    SeedKeepsValid(cfg, db, rid, sid, draw);
    var logs' := Seeded(db.logs, sid, draw);
    if SessionLogIds(db.logs, sid) == [] {
      SeedContents(cfg, db, rid, sid, draw);
      assert |SessionLogIds(logs', sid)| < cfg.questionsPerRound;
    } else {
      assert logs' == db.logs;
    }
    forall i | 0 <= i < |db.sessions| && db.sessions[i].roundId == rid
      ensures |SessionLogIds(logs', i)| < cfg.questionsPerRound
    {
      if i != sid {
        assert |SessionLogIds(logs', i)| == |SessionLogIds(db.logs, i)|;
      }
    }
  }

  /** An answer in a round whose sessions are all short cannot fill
      position QUESTIONS_PER_ROUND: no session is stamped, no match moves,
      and the sessions stay short. */
  lemma ShortAnswerStalls(cfg: Config, db: Db, rid: nat, sid: nat, idx: nat, cid: nat, phase: string, now: Tick)
    requires Valid(cfg, db) && RoundRefs(db) && rid < |db.rounds| && sid < |db.sessions| && cid < |db.choices|
    requires db.sessions[sid].roundId == rid
    requires FirstUnanswered(db.logs, SessionLogIds(db.logs, sid)) == Some(idx)
    requires ShortSessions(cfg, db, rid)
    ensures var ids := SessionLogIds(db.logs, sid);
      && idx < |ids| && ids[idx] < |db.logs|
      && var db' := Answer(cfg, db, rid, sid, ids[idx], idx, cid, phase, now).0;
      && db'.matches == db.matches && |db'.sessions| == |db.sessions|
      && (forall i :: 0 <= i < |db.sessions| ==>
            db'.sessions[i].roundId == db.sessions[i].roundId && db'.sessions[i].completedAt == db.sessions[i].completedAt)
      && ShortSessions(cfg, db', rid)
  {
    FirstUnansweredByKey(db.logs, sid);
    AnswerKeepsLogCounts(cfg, db, rid, sid, SessionLogIds(db.logs, sid)[idx], idx, cid, phase, now);
  }

  /** Round `rid` is no closer to completion in `db'` than in `db`: the
      matches are untouched, no session is stamped, and its sessions stay
      short. */
  ghost predicate Stalled(cfg: Config, db: Db, db': Db, rid: nat)
  {
    && db'.matches == db.matches
    && |db'.sessions| == |db.sessions|
    && ShortSessions(cfg, db', rid)
    && forall i :: 0 <= i < |db.sessions| ==>
         db'.sessions[i].roundId == db.sessions[i].roundId && db'.sessions[i].completedAt == db.sessions[i].completedAt
  }

  lemma ShortPlayStalls(cfg: Config, db: Db, rid: nat, u: UserId, sid: nat, phase: string, draw: seq<nat>,
                        form: Form<nat>, now: Tick)
    requires Valid(cfg, db) && RoundRefs(db) && rid < |db.rounds| && DrawFits(cfg, db, rid, draw)
    requires |ApprovedPool(db.questions, db.rounds[rid].categoryId)| < cfg.questionsPerRound
    requires ShortSessions(cfg, db, rid)
    requires Some(u) == Turn(db.matches[db.rounds[rid].matchId], db.rounds[rid], phase)
    requires SessionOf(db.sessions, rid, u) == Some(sid)
    ensures Stalled(cfg, db, PlayRound(cfg, db, rid, u, phase, draw, form, now).0, rid)
  {
    ShortSeed(cfg, db, rid, sid, draw);
    var seeded := db.(logs := Seeded(db.logs, sid, draw));
    var db' := PlayRound(cfg, db, rid, u, phase, draw, form, now).0;
    var next := FirstUnanswered(seeded.logs, SessionLogIds(seeded.logs, sid));
    if next.Some? && form.Post? && form.field.Some? && form.field.value < |db.choices| {
      PlayRoundAnswerStep(cfg, db, rid, u, phase, draw, form.field.value, now, sid, next.value);
      ShortAnswerStalls(cfg, seeded, rid, sid, next.value, form.field.value, phase, now);
    } else {
      PlayRoundSeedOnly(cfg, db, rid, u, phase, draw, form, now, sid);
    }
  }

  /** When the round's category has fewer approved questions than
      QUESTIONS_PER_ROUND, no session of the round reaches that many logs,
      none is stamped complete, and the match never moves past the round:
      once a player's logs are all answered, play_round only sends them to
      round_complete.  The premise on the sessions holds when the round is
      created (its sessions have no logs), and the conclusion restores it. */
  lemma ShortPoolNeverCompletes(cfg: Config, db: Db, rid: nat, u: UserId, phase: string, draw: seq<nat>,
                                form: Form<nat>, now: Tick)
    requires Valid(cfg, db) && rid < |db.rounds| && DrawFits(cfg, db, rid, draw)
    requires |ApprovedPool(db.questions, db.rounds[rid].categoryId)| < cfg.questionsPerRound
    requires forall sid :: 0 <= sid < |db.sessions| && db.sessions[sid].roundId == rid ==>
      |SessionLogIds(db.logs, sid)| < cfg.questionsPerRound
    ensures RoundRefs(db)
    ensures var db' := PlayRound(cfg, db, rid, u, phase, draw, form, now).0;
      && db'.matches == db.matches
      && |db'.sessions| == |db.sessions|
      && forall sid :: 0 <= sid < |db.sessions| && db.sessions[sid].roundId == rid ==>
           && db'.sessions[sid].roundId == rid
           && db'.sessions[sid].completedAt.None?
           && |SessionLogIds(db'.logs, sid)| < cfg.questionsPerRound
  {
    ValidRoundRefs(cfg, db);
    assert ShortSessions(cfg, db, rid);
    forall i | 0 <= i < |db.sessions| && db.sessions[i].roundId == rid ensures db.sessions[i].completedAt.None? {
      assert SessionValid(cfg, db.sessions[i], i, |db.rounds|, db.logs);
    }
    var db' := PlayRound(cfg, db, rid, u, phase, draw, form, now).0;
    if Some(u) == Turn(db.matches[db.rounds[rid].matchId], db.rounds[rid], phase) && SessionOf(db.sessions, rid, u).Some? {
      ShortPlayStalls(cfg, db, rid, u, SessionOf(db.sessions, rid, u).value, phase, draw, form, now);
    } else {
      assert db' == db;
    }
    assert Stalled(cfg, db, db', rid);
  }
}

/** The request handlers of game/views.py as functions from a database
    snapshot and a request to the next snapshot and the response.

    A response is an `Outcome`: the redirect or page the handler returns,
    reduced to its target and the values it hands the template.  Randomness
    (`random.sample`, `order_by('?')`) and the clock are arguments.
 */
module Views {
  import opened Models
  import opened Queries
  import opened Database

  /** One row of the match summary: (round_number, player1 score, player2 score). */
  datatype Row = Row(roundNumber: int, score1: int, score2: int)

  datatype Outcome =
    | ToHome                                          // redirect('home')
    | ToMatchStatus                                   // redirect('match_status')
    | ShowWaiting(matchId: nat)                       // render waiting.html
    | ToStartRound(matchId: nat)                      // redirect('start_round')
    | ToMatchComplete(matchId: nat)                   // redirect('match_complete')
    | WaitOtherChoice(matchId: nat, roundNumber: int) // render wait_other_choice.html
    | ChooseCategory(options: seq<nat>, roundNumber: int)  // render select_category.html
    | ToPlayRound(roundId: nat, phase: string)        // redirect('play_round')
    | ToWaitingPhase(roundId: nat, phase: string)     // redirect('waiting_phase')
    | ShowQuestion(questionId: nat, choiceIds: seq<nat>, position: int, total: int)  // render quiz_question.html
    | ToRoundComplete(roundId: nat)                   // redirect('round_complete')
    | RoundSummary(roundId: nat, score1: int, score2: int)  // render round_complete.html
    | MatchSummary(matchId: nat, rows: seq<Row>, total1: int, total2: int)  // render match_complete.html
    | NotFound                                        // Http404 from get_object_or_404
    | ServerError                                     // an exception the handler does not catch

  /** How a request reaches a handler: a GET, or a POST whose one form field
      of interest is present or missing. */
  datatype Form<T> = Get | Post(field: Option<T>)

  // ---- join_match (game/views.py:36-56) ----

  function Paired(m: GameMatch, u: UserId, now: Tick): GameMatch
  {
    m.(player2 := Some(u), status := InRound, startedAt := Some(now))
  }

  function Join(db: Db, u: UserId, now: Tick): (Db, Outcome)
  {
    if ActiveMatchOf(db.matches, u).Some? then (db, ToMatchStatus)
    else
      match WaitingMatchFor(db.matches, u)
      case Some(w) => (db.(matches := db.matches[w := Paired(db.matches[w], u, now)]), ToStartRound(w))
      case None => (db.(matches := db.matches + [NewMatch(u)]), ToMatchStatus)
  }

  // ---- match_status (game/views.py:59-73) ----

  function MatchStatus(db: Db, u: UserId): Outcome
  {
    match ActiveMatchOf(db.matches, u)
    case None => ToHome
    case Some(i) => if db.matches[i].status == InRound then ToStartRound(i) else ShowWaiting(i)
  }

  // ---- start_round (game/views.py:76-132) ----

  /** The categories no earlier round of match `mid` used, in primary-key order. */
  function AvailableFor(db: Db, mid: nat): seq<nat>
  {
    UnusedIds(|db.categories|, UsedCategories(db.rounds, mid))
  }

  /** The injected `random.sample` result is a valid sample of the available
      categories whenever the handler would draw one. */
  predicate SampleFits(cfg: Config, db: Db, mid: nat, sample: seq<nat>)
  {
    |AvailableFor(db, mid)| > cfg.choiceCount ==> IsSample(sample, AvailableFor(db, mid), cfg.choiceCount)
  }

  /** Creates the round and then one session per player, in the order
      player1, player2; creating a session for an unset player2 raises (the
      user column is NOT NULL) after the earlier rows are saved. */
  function CreateRound(db: Db, mid: nat, u: UserId, cid: nat): (Db, Outcome)
    requires mid < |db.matches|
  {
    var m := db.matches[mid];
    var rid := |db.rounds|;
    var rounds := db.rounds + [Round(mid, m.currentRound, u, cid)];
    var sessions := db.sessions + [NewSession(rid, m.player1)];
    match m.player2
    case None => (db.(rounds := rounds, sessions := sessions), ServerError)
    case Some(p2) => (db.(rounds := rounds, sessions := sessions + [NewSession(rid, p2)]), ToPlayRound(rid, "self"))
  }

  function StartRound(cfg: Config, db: Db, mid: nat, u: UserId, form: Form<string>, sample: seq<nat>): (Db, Outcome)
    requires mid < |db.matches| ==> SampleFits(cfg, db, mid, sample)
  {
    if mid >= |db.matches| then (db, NotFound)
    else
      var m := db.matches[mid];
      if m.currentRound > cfg.totalRounds then (db, ToMatchComplete(mid))
      else
        var chooser := ParityChooser(m, m.currentRound);
        match RoundOf(db.rounds, mid, m.currentRound)
        case Some(rid) => (db, ToPlayRound(rid, if Some(u) == chooser then "self" else "opponent"))
        case None =>
          if Some(u) != chooser then (db, WaitOtherChoice(mid, m.currentRound))
          else
            var options := Offer(AvailableFor(db, mid), cfg.choiceCount, sample);
            match form
            case Get => (db, ChooseCategory(options, m.currentRound))
            case Post(slug) =>
              match CategoryBySlug(db.categories, slug)
              case None => (db, NotFound)
              case Some(cid) => CreateRound(db, mid, u, cid)
  }

  // ---- play_round (game/views.py:135-203) ----

  /** `order[phase_index]`: the chooser for phase 'self'; for any other phase
      string, player2 if the chooser is player1 and player1 otherwise. */
  function Turn(m: GameMatch, r: Round, phase: string): Option<UserId>
  {
    var opponent := if r.chooser == m.player1 then m.player2 else Some(m.player1);
    if phase == "self" then Some(r.chooser) else opponent
  }

  /** The injected `order_by('?')[:QUESTIONS_PER_ROUND]` result is a valid draw
      from the approved questions of the round's category. */
  predicate DrawFits(cfg: Config, db: Db, rid: nat, draw: seq<nat>)
    requires rid < |db.rounds|
  {
    var pool := ApprovedPool(db.questions, db.rounds[rid].categoryId);
    IsSample(draw, pool, Min(|pool|, cfg.questionsPerRound))
  }

  /** The logs after the first-view seeding: a session without logs gets one
      per drawn question; a session with logs is left alone. */
  function Seeded(logs: seq<AnswerLog>, sid: nat, draw: seq<nat>): seq<AnswerLog>
  {
    if SessionLogIds(logs, sid) == [] then logs + SeedLogs(sid, draw) else logs
  }

  /** Answers log `lid` (at position `idx` of session `sid`) with choice `cid`,
      then closes the phase when `idx + 1` reaches QUESTIONS_PER_ROUND. */
  function Answer(cfg: Config, db: Db, rid: nat, sid: nat, lid: nat, idx: nat, cid: nat, phase: string, now: Tick): (Db, Outcome)
    requires rid < |db.rounds| && db.rounds[rid].matchId < |db.matches|
    requires sid < |db.sessions| && lid < |db.logs| && cid < |db.choices|
  {
    var choice := db.choices[cid];
    var logs := db.logs[lid := db.logs[lid].(selectedChoice := Some(cid), isCorrect := choice.isCorrect)];
    var s := db.sessions[sid];
    var scored := if choice.isCorrect then s.(score := s.score + 1) else s;
    if idx + 1 < cfg.questionsPerRound then
      (db.(logs := logs, sessions := db.sessions[sid := scored]), ToPlayRound(rid, phase))
    else
      var done := db.(logs := logs, sessions := db.sessions[sid := scored.(completedAt := Some(now))]);
      if phase == "self" then (done, ToPlayRound(rid, "opponent"))
      else
        var mid := db.rounds[rid].matchId;
        var m := db.matches[mid];
        var next := m.currentRound + 1;
        var m' := m.(currentRound := next, status := if next > cfg.totalRounds then Completed else m.status);
        (done.(matches := db.matches[mid := m']), ToRoundComplete(rid))
  }

  function PlayRound(cfg: Config, db: Db, rid: nat, u: UserId, phase: string, draw: seq<nat>, form: Form<nat>, now: Tick): (Db, Outcome)
    requires RoundRefs(db)
  {
    if rid >= |db.rounds| then (db, NotFound)
    else
      var r := db.rounds[rid];
      if Some(u) != Turn(db.matches[r.matchId], r, phase) then (db, ToWaitingPhase(rid, phase))
      else
        match SessionOf(db.sessions, rid, u)
        case None => (db, NotFound)
        case Some(sid) =>
          var seeded := db.(logs := Seeded(db.logs, sid, draw));
          var ids := SessionLogIds(seeded.logs, sid);
          match FirstUnanswered(seeded.logs, ids)
          case None => (seeded, ToRoundComplete(rid))
          case Some(idx) =>
            var lid := ids[idx];
            var qid := seeded.logs[lid].questionId;
            match form
            case Get => (seeded, ShowQuestion(qid, ChoicesOf(db.choices, qid), idx + 1, cfg.questionsPerRound))
            case Post(None) => (seeded, ServerError)
            case Post(Some(cid)) =>
              if cid >= |db.choices| then (seeded, NotFound)
              else Answer(cfg, seeded, rid, sid, lid, idx, cid, phase, now)
  }

  // ---- round_complete (game/views.py:215-224) ----

  function RoundComplete(db: Db, rid: nat): Outcome
    requires RoundRefs(db)
  {
    if rid >= |db.rounds| then NotFound
    else
      var m := db.matches[db.rounds[rid].matchId];
      match SessionOf(db.sessions, rid, m.player1)
      case None => NotFound
      case Some(s1) =>
        match m.player2
        case None => NotFound
        case Some(p2) =>
          match SessionOf(db.sessions, rid, p2)
          case None => NotFound
          case Some(s2) => RoundSummary(rid, db.sessions[s1].score, db.sessions[s2].score)
  }

  // ---- match_complete (game/views.py:227-245) ----

  /** The summary row of round `rid`; `sessions.get` raises when either
      player has no session in it. */
  function RoundRow(db: Db, rid: nat, p1: UserId, p2: Option<UserId>): Option<Row>
    requires rid < |db.rounds|
  {
    var s1 := SessionOf(db.sessions, rid, p1);
    var s2 := if p2.Some? then SessionOf(db.sessions, rid, p2.value) else None;
    if s1.None? || s2.None? then None
    else Some(Row(db.rounds[rid].roundNumber, db.sessions[s1.value].score, db.sessions[s2.value].score))
  }

  function SummaryRows(db: Db, rids: seq<nat>, p1: UserId, p2: Option<UserId>): Option<seq<Row>>
    requires forall k :: 0 <= k < |rids| ==> rids[k] < |db.rounds|
  {
    if |rids| == 0 then Some([])
    else
      match SummaryRows(db, rids[..|rids| - 1], p1, p2)
      case None => None
      case Some(rows) =>
        match RoundRow(db, rids[|rids| - 1], p1, p2)
        case None => None
        case Some(row) => Some(rows + [row])
  }

  function Total1(rows: seq<Row>): int
  {
    if |rows| == 0 then 0 else Total1(rows[..|rows| - 1]) + rows[|rows| - 1].score1
  }

  function Total2(rows: seq<Row>): int
  {
    if |rows| == 0 then 0 else Total2(rows[..|rows| - 1]) + rows[|rows| - 1].score2
  }

  function MatchComplete(db: Db, mid: nat): Outcome
  {
    if mid >= |db.matches| then NotFound
    else
      var m := db.matches[mid];
      match SummaryRows(db, RoundIdsOf(db.rounds, mid), m.player1, m.player2)
      case None => ServerError
      case Some(rows) => MatchSummary(mid, rows, Total1(rows), Total2(rows))
  }
}
